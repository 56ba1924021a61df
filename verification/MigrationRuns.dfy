/** Whole runs of migrations, conditional updates and rollbacks over the task tables. */
module MigrationRuns {
  import opened Text
  import opened TaskStore

  /**
   * Where a row comes from: the run that inserted it, if any, a number unique to this insertion, its successful
   * updates, and what the last of them, or the insertion, wrote.
   */
  datatype Origin = Origin(run: Option<RunId>, birth: nat, updates: nat, written: string)

  datatype System = System(tables: Tables, origins: map<Key, Origin>, births: nat)

  datatype Event =
    | Migrate(run: RunId, entries: seq<Entry>)
    | Cas(id: nat, expected: nat, config: string)
    | Rollback(run: RunId)

  /** Bookkeeping of a conditional update: the row it hit counts one more. */
  function Counted(s: System, id: nat, expected: nat, config: string): map<Key, Origin>
  {
    map k | k in s.origins :: var o := s.origins[k];
      if k in s.tables.rows && s.tables.rows[k].id == id && s.tables.rows[k].revision == expected then
        o.(updates := o.updates + 1, written := config)
      else o
  }

  function CasStep(s: System, id: nat, expected: nat, config: string): System
  {
    System(s.tables.(rows := Updated(s.tables.rows, id, expected, config)), Counted(s, id, expected, config), s.births)
  }

  /** Bookkeeping beside `Imported`. */
  function ImportStep(s: System, run: RunId, e: Entry): System
    requires Imported(s.tables, run, e).Some?
  {
    var t := Imported(s.tables, run, e).value;
    if e.key in s.tables.rows then
      var r := s.tables.rows[e.key];
      if r.config != e.config then CasStep(s, r.id, r.revision, e.config) else s
    else System(t, s.origins[e.key := Origin(Some(run), s.births, 0, e.config)], s.births + 1)
  }

  function ImportSteps(s: System, run: RunId, entries: seq<Entry>): (r: System)
    requires ImportedAll(s.tables, run, entries).Some?
    ensures r.tables == ImportedAll(s.tables, run, entries).value
  {
    if entries == [] then s
    else ImportStep(ImportSteps(s, run, entries[..|entries| - 1]), run, entries[|entries| - 1])
  }

  function Finished(s: System, run: RunId): System
  {
    s.(tables := s.tables.(journal := s.tables.journal[run := Completed]))
  }

  /** The steps; their tables are those of the operations (see `StepTables`). */
  function Step(s: System, e: Event): System
  {
    match e
    case Migrate(run, entries) =>
      if entries == [] || run in s.tables.journal || ImportedAll(s.tables, run, entries).None? then s
      else Finished(ImportSteps(s, run, entries), run)
    case Cas(id, expected, config) => CasStep(s, id, expected, config)
    case Rollback(run) =>
      var t := Reverted(s.tables, run);
      System(t, map k | k in s.origins && k in t.rows :: s.origins[k], s.births)
  }

  lemma StepTables(s: System, e: Event)
    ensures Step(s, e).tables == match e
      case Migrate(run, entries) => Migrated(s.tables, run, entries)
      case Cas(id, expected, config) => s.tables.(rows := Updated(s.tables.rows, id, expected, config))
      case Rollback(run) => Reverted(s.tables, run)
  {
  }

  function Run(s: System, events: seq<Event>): System
    decreases |events|
  {
    if events == [] then s else Step(Run(s, events[..|events| - 1]), events[|events| - 1])
  }

  /** Rows from before the first event are of unknown origin; no migration has run yet. */
  ghost predicate Initial(s: System)
  {
    && UniqueIds(s.tables.rows) && s.tables.items == {} && s.tables.journal == map[]
    && s.origins.Keys == s.tables.rows.Keys
    && (forall k :: k in s.origins ==> s.origins[k].run.None? && s.origins[k].birth < s.births
                                        && s.origins[k].written == s.tables.rows[k].config)
  }

  /** `open` is a run whose rows are being inserted. */
  ghost predicate SoundAt(s: System, k: Key, open: Option<RunId>)
  {
    && (k in s.tables.rows <==> k in s.origins)
    && (k in s.origins ==> s.origins[k].birth < s.births && s.tables.rows[k].config == s.origins[k].written)
    && (k in s.origins && s.origins[k].run.Some? ==>
          && s.tables.rows[k].revision == 1 + s.origins[k].updates
          && Item(s.origins[k].run.value, k) in s.tables.items)
    && (forall run :: Item(run, k) in s.tables.items ==>
          && (run in s.tables.journal || Some(run) == open)
          && (Some(run) == open || s.tables.journal[run].Completed? ==>
            k in s.origins && s.origins[k].run == Some(run)))
  }

  ghost predicate Sound(s: System, open: Option<RunId>)
  {
    UniqueIds(s.tables.rows) && forall k :: SoundAt(s, k, open)
  }

  lemma CasKeepsSound(s: System, id: nat, expected: nat, config: string, open: Option<RunId>)
    requires Sound(s, open)
    ensures Sound(CasStep(s, id, expected, config), open)
  {
    forall k ensures SoundAt(CasStep(s, id, expected, config), k, open) {
      assert SoundAt(s, k, open);
    }
  }

  lemma ImportKeepsSound(s: System, run: RunId, e: Entry)
    requires Sound(s, Some(run)) && run !in s.tables.journal && Imported(s.tables, run, e).Some?
    ensures Sound(ImportStep(s, run, e), Some(run)) && ImportStep(s, run, e).tables.journal == s.tables.journal
  {
    if e.key in s.tables.rows {
      CasKeepsSound(s, s.tables.rows[e.key].id, s.tables.rows[e.key].revision, e.config, Some(run));
    } else {
      var t := ImportStep(s, run, e);
      forall k ensures SoundAt(t, k, Some(run)) {
        assert SoundAt(s, k, Some(run));
      }
    }
  }

  lemma {:induction false} ImportsKeepSound(s: System, run: RunId, entries: seq<Entry>)
    requires Sound(s, Some(run)) && run !in s.tables.journal && ImportedAll(s.tables, run, entries).Some?
    ensures Sound(ImportSteps(s, run, entries), Some(run))
    ensures ImportSteps(s, run, entries).tables.journal == s.tables.journal
  {
    if entries != [] {
      ImportsKeepSound(s, run, entries[..|entries| - 1]);
      ImportKeepsSound(ImportSteps(s, run, entries[..|entries| - 1]), run, entries[|entries| - 1]);
    }
  }

  lemma StepKeepsSound(s: System, e: Event)
    requires Sound(s, None)
    ensures Sound(Step(s, e), None)
  {
    match e
    case Cas(id, expected, config) => CasKeepsSound(s, id, expected, config, None);
    case Migrate(run, entries) =>
      if entries != [] && run !in s.tables.journal && ImportedAll(s.tables, run, entries).Some? {
        forall k ensures SoundAt(s, k, Some(run)) { assert SoundAt(s, k, None); }
        ImportsKeepSound(s, run, entries);
        var t := ImportSteps(s, run, entries);
        forall k ensures SoundAt(Finished(t, run), k, None) { assert SoundAt(t, k, Some(run)); }
      }
    case Rollback(run) =>
      forall k ensures SoundAt(Step(s, e), k, None) { assert SoundAt(s, k, None); }
  }

  lemma {:induction false} RunSound(s: System, events: seq<Event>)
    requires Initial(s)
    ensures Sound(Run(s, events), None)
    decreases |events|
  {
    if events != [] {
      RunSound(s, events[..|events| - 1]);
      StepKeepsSound(Run(s, events[..|events| - 1]), events[|events| - 1]);
    }
  }

  // ---------- what the tables mean ----------

  /** The revision of a migrated row is one more than the number of its successful updates. */
  lemma RevisionCountsUpdates(s: System, events: seq<Event>, k: Key)
    requires Initial(s)
    ensures var t := Run(s, events);
      k in t.tables.rows ==>
        k in t.origins && (t.origins[k].run.Some? ==> t.tables.rows[k].revision == 1 + t.origins[k].updates)
  {
    RunSound(s, events);
    assert SoundAt(Run(s, events), k, None);
  }

  /** A row holds what its last successful update wrote, or its insertion if there was none. */
  lemma ConfigIsLastWritten(s: System, events: seq<Event>, k: Key)
    requires Initial(s)
    ensures var t := Run(s, events);
      k in t.tables.rows ==> k in t.origins && t.tables.rows[k].config == t.origins[k].written
  {
    RunSound(s, events);
    assert SoundAt(Run(s, events), k, None);
  }

  /**
   * Whatever happened before, a migration that completes leaves the listed configuration of every task that is listed
   * once, and the row of every task that is not listed.
   */
  lemma MigrationDelivers(s: System, events: seq<Event>, run: RunId, entries: seq<Entry>, k: Key)
    requires Initial(s) && forall i, j :: 0 <= i < j < |entries| ==> entries[i].key != entries[j].key
    ensures var before, after := Run(s, events).tables, Step(Run(s, events), Migrate(run, entries)).tables;
      run !in before.journal && run in after.journal ==>
        && (forall e :: e in entries && e.key == k ==> k in after.rows && after.rows[k].config == e.config)
        && Untouched(before, after, entries, k)
  {
    RunSound(s, events);
    var t := Run(s, events);
    StepTables(t, Migrate(run, entries));
    var before, after := t.tables, Step(t, Migrate(run, entries)).tables;
    if run !in before.journal && run in after.journal {
      MigrationLaw(before, run, entries);
      forall e | e in entries && e.key == k ensures k in after.rows && after.rows[k].config == e.config {
        var i :| 0 <= i < |entries| && entries[i] == e;
        ListedOnce(before, run, entries, i);
      }
    }
  }

  /**
   * Rolling back a completed run deletes exactly the rows that this run inserted and nobody updated since; all else
   * stays.
   */
  lemma RollbackExact(s: System, events: seq<Event>, run: RunId, k: Key)
    requires Initial(s)
    ensures var t := Run(s, events);
      var u := Step(t, Rollback(run));
      run in t.tables.journal && t.tables.journal[run].Completed? ==>
        && (k in t.tables.rows && k !in u.tables.rows
          <==> k in t.origins && t.origins[k].run == Some(run) && t.origins[k].updates == 0)
        && (k in u.tables.rows ==> k in t.tables.rows && u.tables.rows[k] == t.tables.rows[k])
  {
    RunSound(s, events);
    assert SoundAt(Run(s, events), k, None);
  }

  // ---------- optimistic locking ----------

  /** The same inserted row, at two moments. */
  ghost predicate SameRow(s: System, t: System, k: Key)
  {
    k in s.tables.rows && k in t.tables.rows && k in s.origins && k in t.origins
      && s.origins[k].birth == t.origins[k].birth
  }

  /**
   * Births only grow: the later row is the earlier one with at least its revision and the same identifier, or a
   * younger one.
   */
  ghost predicate Later(s: System, t: System, k: Key)
  {
    && s.births <= t.births
    && (k in s.origins && k in t.origins && t.origins[k].birth < s.births ==> t.origins[k].birth == s.origins[k].birth)
    && (k !in s.origins && k in t.origins ==> t.origins[k].birth >= s.births)
    && (SameRow(s, t, k) ==>
      t.tables.rows[k].id == s.tables.rows[k].id && t.tables.rows[k].revision >= s.tables.rows[k].revision)
  }

  lemma ImportLater(s: System, run: RunId, e: Entry, k: Key)
    requires Sound(s, Some(run)) && Imported(s.tables, run, e).Some?
    ensures Later(s, ImportStep(s, run, e), k)
  {
    assert SoundAt(s, k, Some(run)) && SoundAt(s, e.key, Some(run));
  }

  lemma {:induction false} ImportsLater(s: System, run: RunId, entries: seq<Entry>, k: Key)
    requires Sound(s, Some(run)) && run !in s.tables.journal && ImportedAll(s.tables, run, entries).Some?
    ensures Later(s, ImportSteps(s, run, entries), k)
  {
    if entries != [] {
      var t := ImportSteps(s, run, entries[..|entries| - 1]);
      ImportsLater(s, run, entries[..|entries| - 1], k);
      ImportsKeepSound(s, run, entries[..|entries| - 1]);
      ImportLater(t, run, entries[|entries| - 1], k);
      assert SoundAt(s, k, Some(run)) && SoundAt(t, k, Some(run));
    }
  }

  lemma StepLater(s: System, e: Event, k: Key)
    requires Sound(s, None)
    ensures Later(s, Step(s, e), k)
  {
    assert SoundAt(s, k, None);
    if e.Migrate? && e.entries != [] && e.run !in s.tables.journal && ImportedAll(s.tables, e.run, e.entries).Some? {
      forall l ensures SoundAt(s, l, Some(e.run)) { assert SoundAt(s, l, None); }
      ImportsLater(s, e.run, e.entries, k);
    }
  }

  lemma {:induction false} RunLater(s: System, events: seq<Event>, k: Key)
    requires Sound(s, None)
    ensures Sound(Run(s, events), None) && Later(s, Run(s, events), k)
    decreases |events|
  {
    if events == [] {
      assert SoundAt(s, k, None);
    } else {
      var t := Run(s, events[..|events| - 1]);
      RunLater(s, events[..|events| - 1], k);
      StepKeepsSound(t, events[|events| - 1]);
      StepLater(t, events[|events| - 1], k);
      assert SoundAt(s, k, None) && SoundAt(t, k, None);
    }
  }

  /**
   * Once an update with some expected revision has won on a row, no later one with that expectation wins on the
   * same row.
   */
  lemma OneWinnerPerRevision(s: System, events: seq<Event>, id: nat, expected: nat, config: string, k: Key)
    requires Sound(s, None) && k in s.tables.rows && Hits(s.tables.rows[k], id, expected)
    ensures var t := Run(Step(s, Cas(id, expected, config)), events);
      SameRow(s, t, k) ==> t.tables.rows[k].revision > expected && !Succeeds(t.tables.rows, id, expected)
  {
    assert SoundAt(s, k, None);
    var s1 := Step(s, Cas(id, expected, config));
    StepKeepsSound(s, Cas(id, expected, config));
    RunLater(s1, events, k);
    var t := Run(s1, events);
    if SameRow(s, t, k) {
      assert SameRow(s1, t, k);
      assert UniqueIds(t.tables.rows);
    }
  }
}
