/** Sign tasks in the database: optimistic locking, migration from files, and its exact rollback. */
module TaskStore {
  import opened Text

  datatype Key = Key(account: string, task: string)

  type RunId = string

  datatype Row = Row(id: nat, revision: nat, config: string)

  datatype Status = Completed | RolledBack

  /** A migration item: a row that a run inserted. */
  datatype Item = Item(run: RunId, key: Key)

  /** The three tables; the key of a row and the run of a journal entry are unique. */
  datatype Tables = Tables(rows: map<Key, Row>, items: set<Item>, journal: map<RunId, Status>)

  /** A scanned task file, with the row identifier the database would assign. */
  datatype Entry = Entry(key: Key, config: string, newId: nat)

  predicate IdInUse(rows: map<Key, Row>, id: nat)
  {
    exists k :: k in rows && rows[k].id == id
  }

  predicate Hits(r: Row, id: nat, expected: nat)
  {
    r.id == id && r.revision == expected
  }

  predicate Succeeds(rows: map<Key, Row>, id: nat, expected: nat)
  {
    exists k :: k in rows && Hits(rows[k], id, expected)
  }

  /** The conditional update: fields and revision change together, only where identifier and revision match. */
  function Updated(rows: map<Key, Row>, id: nat, expected: nat, config: string): map<Key, Row>
  {
    map k | k in rows :: if Hits(rows[k], id, expected) then Row(id, expected + 1, config) else rows[k]
  }

  /** The row identifier is a primary key. */
  ghost predicate UniqueIds(rows: map<Key, Row>)
  {
    forall k, l :: k in rows && l in rows && rows[k].id == rows[l].id ==> k == l
  }

  /** One entry of a migration; None if the database refuses the identifier. */
  function Imported(t: Tables, run: RunId, e: Entry): Option<Tables>
  {
    if e.key in t.rows then
      var r := t.rows[e.key];
      Some(if r.config != e.config then t.(rows := Updated(t.rows, r.id, r.revision, e.config)) else t)
    else if IdInUse(t.rows, e.newId) then None
    else Some(t.(rows := t.rows[e.key := Row(e.newId, 1, e.config)], items := t.items + {Item(run, e.key)}))
  }

  function ImportedAll(t: Tables, run: RunId, entries: seq<Entry>): Option<Tables>
  {
    if entries == [] then Some(t) else
      var before := ImportedAll(t, run, entries[..|entries| - 1]);
      if before.None? then None else Imported(before.value, run, entries[|entries| - 1])
  }

  /** A migration is one transaction: a clash of run or row identifiers undoes all of it. */
  function Migrated(t: Tables, run: RunId, entries: seq<Entry>): Tables
  {
    if entries == [] || run in t.journal then t else
      var done := ImportedAll(t, run, entries);
      if done.None? then t else done.value.(journal := done.value.journal[run := Completed])
  }

  predicate Doomed(t: Tables, run: RunId, k: Key)
  {
    Item(run, k) in t.items && k in t.rows && t.rows[k].revision == 1
  }

  function Reverted(t: Tables, run: RunId): Tables
  {
    if run !in t.journal || !t.journal[run].Completed? then t
    else t.(rows := map k | k in t.rows && !Doomed(t, run, k) :: t.rows[k], journal := t.journal[run := RolledBack])
  }

  class Database {
    var tables: Tables

    constructor ()
      ensures tables == Tables(map[], {}, map[])
    {
      tables := Tables(map[], {}, map[]);
    }

    method CasUpdate(id: nat, expected: nat, config: string) returns (won: bool)
      modifies this
      ensures won <==> Succeeds(old(tables).rows, id, expected)
      ensures tables == old(tables).(rows := Updated(old(tables).rows, id, expected, config))
      ensures !won ==> tables == old(tables)
      // a winner writes its configuration under the next revision, and touches no other row
      ensures tables.rows.Keys == old(tables).rows.Keys
      ensures forall k :: k in tables.rows ==> var r := old(tables).rows[k];
        tables.rows[k] == if r.id == id && r.revision == expected then Row(id, expected + 1, config) else r
    {
      var hits := set k | k in tables.rows && Hits(tables.rows[k], id, expected);
      var rest := hits;
      while rest != {}
        invariant rest <= hits
        invariant tables.items == old(tables).items && tables.journal == old(tables).journal
        invariant tables.rows.Keys == old(tables).rows.Keys
        invariant forall k :: k in tables.rows ==>
          tables.rows[k] == if k in hits - rest then Row(id, expected + 1, config) else old(tables).rows[k]
        decreases |rest|
      {
        var k :| k in rest;
        tables := tables.(rows := tables.rows[k := Row(id, expected + 1, config)]);
        rest := rest - {k};
      }
      won := hits != {};
      assert hits != {} ==> exists k :: k in hits;
    }

    /** `failed` reports the clash of identifiers that the database refuses. */
    method RunMigration(run: RunId, entries: seq<Entry>, dryRun: bool) returns (failed: bool)
      modifies this
      ensures tables == if dryRun then old(tables) else Migrated(old(tables), run, entries)
      ensures failed
        <==> !dryRun && entries != [] && (run in old(tables).journal || ImportedAll(old(tables), run, entries).None?)
    {
      if dryRun || entries == [] { return false; }
      var draft := tables;
      for i := 0 to |entries|
        invariant ImportedAll(tables, run, entries[..i]) == Some(draft)
      {
        var e := entries[i];
        assert entries[..i + 1][..i] == entries[..i];
        if e.key in draft.rows {
          var existing := draft.rows[e.key];
          if existing.config != e.config {
            draft := draft.(rows := Updated(draft.rows, existing.id, existing.revision, e.config));
          }
        } else if IdInUse(draft.rows, e.newId) {
          RefusedStays(tables, run, entries, i + 1);
          return true;
        } else {
          draft := draft.(rows := draft.rows[e.key := Row(e.newId, 1, e.config)],
                          items := draft.items + {Item(run, e.key)});
        }
      }
      assert entries[..|entries|] == entries;
      ImportKeepsJournal(tables, run, entries);
      if run in draft.journal { return true; }
      tables := draft.(journal := draft.journal[run := Completed]);
      return false;
    }

    /** The count reported is the number of rows that disappeared. */
    method RollbackMigration(run: RunId) returns (ok: bool, deleted: nat)
      modifies this
      ensures tables == Reverted(old(tables), run)
      ensures ok <==> run in old(tables).journal && old(tables).journal[run].Completed?
      ensures deleted == |old(tables).rows.Keys| - |tables.rows.Keys|
    {
      if run !in tables.journal || !tables.journal[run].Completed? { return false, 0; }
      deleted := 0;
      var rest := tables.items;
      ghost var before := tables;
      while rest != {}
        invariant rest <= before.items && tables == before.(rows := Remaining(before, run, rest))
        invariant deleted + |tables.rows.Keys| == |before.rows.Keys|
        decreases |rest|
      {
        var it :| it in rest;
        RemainingStep(before, run, rest, it);
        rest := rest - {it};
        if it.run == run && it.key in tables.rows && tables.rows[it.key].revision == 1 {
          tables := tables.(rows := tables.rows - {it.key});
          deleted := deleted + 1;
        }
      }
      tables := tables.(journal := tables.journal[run := RolledBack]);
      ok := true;
    }
  }

  /** The rows left while the items in `rest` are still to be looked at. */
  function Remaining(t: Tables, run: RunId, rest: set<Item>): map<Key, Row>
  {
    map k | k in t.rows && !(Doomed(t, run, k) && Item(run, k) !in rest) :: t.rows[k]
  }

  lemma RemainingStep(t: Tables, run: RunId, rest: set<Item>, it: Item)
    requires it in rest && rest <= t.items
    ensures var rows, next := Remaining(t, run, rest), Remaining(t, run, rest - {it});
      if it.run == run && it.key in rows && rows[it.key].revision == 1
      then next == rows - {it.key} && |next.Keys| == |rows.Keys| - 1 else next == rows
  {
    var rows, next := Remaining(t, run, rest), Remaining(t, run, rest - {it});
    if it.run == run && it.key in rows && rows[it.key].revision == 1 {
      assert it == Item(run, it.key);
      assert next.Keys == rows.Keys - {it.key};
    }
  }

  lemma {:induction false} RefusedStays(t: Tables, run: RunId, entries: seq<Entry>, n: nat)
    requires n <= |entries| && ImportedAll(t, run, entries[..n]).None?
    ensures ImportedAll(t, run, entries).None?
    decreases |entries| - n
  {
    if n == |entries| {
      assert entries[..n] == entries;
    } else {
      assert entries[..n + 1][..n] == entries[..n];
      RefusedStays(t, run, entries, n + 1);
    }
  }

  lemma {:induction false} ImportKeepsJournal(t: Tables, run: RunId, entries: seq<Entry>)
    ensures var done := ImportedAll(t, run, entries);
      done.Some? ==>
        && done.value.journal == t.journal && t.items <= done.value.items
        && forall it: Item :: it in done.value.items && it !in t.items ==> it.run == run
  {
    if entries != [] { ImportKeepsJournal(t, run, entries[..|entries| - 1]); }
  }

  // ---------- what a migration leaves ----------

  /** The configuration of a task after the entries are read in order, given the stored one, if any. */
  function ConfigAfter(entries: seq<Entry>, k: Key, stored: Option<string>): Option<string>
  {
    if entries == [] then stored
    else if entries[|entries| - 1].key == k then Some(entries[|entries| - 1].config)
    else ConfigAfter(entries[..|entries| - 1], k, stored)
  }

  /** How many of the entries change a configuration that is stored by then. */
  function Changes(entries: seq<Entry>, k: Key, stored: Option<string>): nat
  {
    if entries == [] then 0
    else
      var before, e := entries[..|entries| - 1], entries[|entries| - 1];
      var now := ConfigAfter(before, k, stored);
      Changes(before, k, stored) + (if e.key == k && now.Some? && now.value != e.config then 1 else 0)
  }

  function StoredConfig(t: Tables, k: Key): Option<string>
  {
    if k in t.rows then Some(t.rows[k].config) else None
  }

  /** What a migration of the entries from `t` has made of the row `k`. */
  ghost predicate RowMigrated(t: Tables, u: Tables, run: RunId, entries: seq<Entry>, k: Key)
  {
    && StoredConfig(u, k) == ConfigAfter(entries, k, StoredConfig(t, k))
    && (k in t.rows ==> k in u.rows && u.rows[k].id == t.rows[k].id)
    && (k in u.rows ==>
      u.rows[k].revision == (if k in t.rows then t.rows[k].revision else 1) + Changes(entries, k, StoredConfig(t, k)))
    && (Item(run, k) in u.items <==> Item(run, k) in t.items || (k in u.rows && k !in t.rows))
  }

  lemma ImportedRow(t: Tables, u: Tables, run: RunId, before: seq<Entry>, e: Entry, k: Key)
    requires UniqueIds(u.rows) && Imported(u, run, e).Some? && RowMigrated(t, u, run, before, k)
    ensures RowMigrated(t, Imported(u, run, e).value, run, before + [e], k)
  {
    var stored := StoredConfig(t, k);
    AfterOne(before, e, k, stored);
    var v := Imported(u, run, e).value;
    if e.key == k {
      if k in u.rows && u.rows[k].config != e.config {
        assert v.rows[k] == Row(u.rows[k].id, u.rows[k].revision + 1, e.config);
      } else if k !in u.rows {
        NothingStored(before, k, stored);
      }
    } else {
      assert k in v.rows <==> k in u.rows;
      assert k in u.rows ==> v.rows[k] == u.rows[k];
    }
  }

  lemma {:induction false} NothingStored(entries: seq<Entry>, k: Key, stored: Option<string>)
    requires ConfigAfter(entries, k, stored).None?
    ensures Changes(entries, k, stored) == 0
  {
    if entries != [] { NothingStored(entries[..|entries| - 1], k, stored); }
  }

  lemma AfterOne(before: seq<Entry>, e: Entry, k: Key, stored: Option<string>)
    ensures ConfigAfter(before + [e], k, stored)
      == if e.key == k then Some(e.config) else ConfigAfter(before, k, stored)
    ensures var now := ConfigAfter(before, k, stored);
      Changes(before + [e], k, stored)
      == Changes(before, k, stored) + if e.key == k && now.Some? && now.value != e.config then 1 else 0
  {
    assert (before + [e])[..|before|] == before;
  }

  lemma ImportKeepsUnique(t: Tables, run: RunId, e: Entry)
    requires UniqueIds(t.rows) && Imported(t, run, e).Some?
    ensures UniqueIds(Imported(t, run, e).value.rows)
  {
  }

  lemma {:induction false} ImportedRows(t: Tables, run: RunId, entries: seq<Entry>, k: Key)
    requires UniqueIds(t.rows) && ImportedAll(t, run, entries).Some?
    ensures UniqueIds(ImportedAll(t, run, entries).value.rows)
    ensures RowMigrated(t, ImportedAll(t, run, entries).value, run, entries, k)
  {
    if entries != [] {
      var before, e := entries[..|entries| - 1], entries[|entries| - 1];
      ImportedRows(t, run, before, k);
      ImportedRow(t, ImportedAll(t, run, before).value, run, before, e, k);
      ImportKeepsUnique(ImportedAll(t, run, before).value, run, e);
      assert before + [e] == entries;
    }
  }

  ghost predicate Untouched(t: Tables, u: Tables, entries: seq<Entry>, k: Key)
  {
    k in t.rows && (forall i :: 0 <= i < |entries| ==> entries[i].key != k) ==> k in u.rows && u.rows[k] == t.rows[k]
  }

  /**
   * A completed migration stores the configuration of every listed task, the last one if a task is listed twice, under
   * a revision that counts the changes; every other row is as it was.
   */
  lemma MigrationLaw(t: Tables, run: RunId, entries: seq<Entry>)
    requires UniqueIds(t.rows) && entries != [] && run !in t.journal && ImportedAll(t, run, entries).Some?
    ensures UniqueIds(Migrated(t, run, entries).rows)
    ensures Migrated(t, run, entries).journal == t.journal[run := Completed]
    ensures forall it: Item :: it.run != run ==> (it in Migrated(t, run, entries).items <==> it in t.items)
    ensures forall k :: RowMigrated(t, Migrated(t, run, entries), run, entries, k)
    ensures forall k :: Untouched(t, Migrated(t, run, entries), entries, k)
  {
    var u := Migrated(t, run, entries);
    ImportKeepsJournal(t, run, entries);
    ImportedRows(t, run, entries, entries[0].key);
    forall k ensures RowMigrated(t, u, run, entries, k) { ImportedRows(t, run, entries, k); }
    forall k ensures Untouched(t, u, entries, k) { RowUntouched(t, u, run, entries, k); }
  }

  lemma RowUntouched(t: Tables, u: Tables, run: RunId, entries: seq<Entry>, k: Key)
    requires RowMigrated(t, u, run, entries, k)
    ensures Untouched(t, u, entries, k)
  {
    if k in t.rows && forall i :: 0 <= i < |entries| ==> entries[i].key != k {
      Unlisted(entries, k, StoredConfig(t, k));
    }
  }

  lemma {:induction false} Unlisted(entries: seq<Entry>, k: Key, stored: Option<string>)
    requires forall i :: 0 <= i < |entries| ==> entries[i].key != k
    ensures ConfigAfter(entries, k, stored) == stored && Changes(entries, k, stored) == 0
  {
    if entries != [] { Unlisted(entries[..|entries| - 1], k, stored); }
  }

  /** If every task is listed once, each holds its own entry's configuration, at most one revision later. */
  lemma ListedOnce(t: Tables, run: RunId, entries: seq<Entry>, i: nat)
    requires UniqueIds(t.rows) && run !in t.journal && ImportedAll(t, run, entries).Some? && i < |entries|
    requires forall j, k :: 0 <= j < k < |entries| ==> entries[j].key != entries[k].key
    ensures var u, e := Migrated(t, run, entries), entries[i];
      && e.key in u.rows && u.rows[e.key].config == e.config
      && (e.key in t.rows && t.rows[e.key].config == e.config ==> u.rows[e.key] == t.rows[e.key])
      && (e.key in t.rows && t.rows[e.key].config != e.config ==> u.rows[e.key].revision == t.rows[e.key].revision + 1)
      && (e.key !in t.rows ==> u.rows[e.key].revision == 1)
  {
    MigrationLaw(t, run, entries);
    assert RowMigrated(t, Migrated(t, run, entries), run, entries, entries[i].key);
    OnlyEntry(entries, i, StoredConfig(t, entries[i].key));
  }

  lemma {:induction false} OnlyEntry(entries: seq<Entry>, i: nat, stored: Option<string>)
    requires i < |entries| && forall j, k :: 0 <= j < k < |entries| ==> entries[j].key != entries[k].key
    ensures var e := entries[i];
      && ConfigAfter(entries, e.key, stored) == Some(e.config)
      && Changes(entries, e.key, stored) == if stored.Some? && stored.value != e.config then 1 else 0
  {
    var before := entries[..|entries| - 1];
    if i == |entries| - 1 {
      Unlisted(before, entries[i].key, stored);
    } else {
      OnlyEntry(before, i, stored);
    }
  }

  // ---------- when a migration is refused ----------

  /** The entry inserts a row: its task is neither stored nor listed before. */
  ghost predicate Inserts(t: Tables, entries: seq<Entry>, i: nat)
    requires i < |entries|
  {
    entries[i].key !in t.rows && forall j :: 0 <= j < i ==> entries[j].key != entries[i].key
  }

  ghost predicate Gave(t: Tables, entries: seq<Entry>, j: nat, id: nat)
    requires j < |entries|
  {
    Inserts(t, entries, j) && entries[j].newId == id
  }

  ghost predicate Taken(t: Tables, entries: seq<Entry>, n: nat, id: nat)
    requires n <= |entries|
  {
    IdInUse(t.rows, id) || exists j :: 0 <= j < n && Gave(t, entries, j, id)
  }

  /** The entry inserts a row under an identifier that a row has by then. */
  ghost predicate Clashes(t: Tables, entries: seq<Entry>, i: nat)
    requires i < |entries|
  {
    Inserts(t, entries, i) && Taken(t, entries, i, entries[i].newId)
  }

  lemma UpdateKeepsIds(rows: map<Key, Row>, id: nat, expected: nat, config: string, any: nat)
    ensures IdInUse(Updated(rows, id, expected, config), any) <==> IdInUse(rows, any)
  {
    var next := Updated(rows, id, expected, config);
    assert forall k :: k in rows ==> next[k].id == rows[k].id;
  }

  lemma InsertTakesId(rows: map<Key, Row>, k: Key, r: Row, any: nat)
    requires k !in rows
    ensures IdInUse(rows[k := r], any) <==> IdInUse(rows, any) || r.id == any
  {
    var next := rows[k := r];
    assert next[k].id == r.id;
    assert forall l :: l in rows ==> next[l] == rows[l];
  }

  lemma {:induction false} KnownAfter(t: Tables, run: RunId, entries: seq<Entry>, n: nat, k: Key)
    requires n <= |entries| && ImportedAll(t, run, entries[..n]).Some?
    ensures k in ImportedAll(t, run, entries[..n]).value.rows
      <==> k in t.rows || exists j :: 0 <= j < n && entries[j].key == k
  {
    if n > 0 {
      assert entries[..n][..n - 1] == entries[..n - 1];
      KnownAfter(t, run, entries, n - 1, k);
    }
  }

  lemma {:induction false} TakenAfter(t: Tables, run: RunId, entries: seq<Entry>, n: nat, id: nat)
    requires n <= |entries| && ImportedAll(t, run, entries[..n]).Some?
    ensures IdInUse(ImportedAll(t, run, entries[..n]).value.rows, id) <==> Taken(t, entries, n, id)
  {
    if n > 0 {
      assert entries[..n][..n - 1] == entries[..n - 1];
      var u, e := ImportedAll(t, run, entries[..n - 1]).value, entries[n - 1];
      TakenAfter(t, run, entries, n - 1, id);
      KnownAfter(t, run, entries, n - 1, e.key);
      assert Inserts(t, entries, n - 1) <==> e.key !in u.rows;
      if e.key in u.rows {
        UpdateKeepsIds(u.rows, u.rows[e.key].id, u.rows[e.key].revision, e.config, id);
      } else {
        InsertTakesId(u.rows, e.key, Row(e.newId, 1, e.config), id);
      }
      assert Taken(t, entries, n, id) <==> Taken(t, entries, n - 1, id) || Gave(t, entries, n - 1, id);
    }
  }

  lemma {:induction false} RefusedPrefix(t: Tables, run: RunId, entries: seq<Entry>, n: nat)
    requires n <= |entries|
    ensures ImportedAll(t, run, entries[..n]).None? <==> exists i :: 0 <= i < n && Clashes(t, entries, i)
  {
    if n > 0 {
      assert entries[..n][..n - 1] == entries[..n - 1];
      RefusedPrefix(t, run, entries, n - 1);
      var before, e := ImportedAll(t, run, entries[..n - 1]), entries[n - 1];
      if before.Some? {
        KnownAfter(t, run, entries, n - 1, e.key);
        TakenAfter(t, run, entries, n - 1, e.newId);
        assert Inserts(t, entries, n - 1) <==> e.key !in before.value.rows;
        assert ImportedAll(t, run, entries[..n]).None? <==> Clashes(t, entries, n - 1);
      }
    }
  }

  /** The database refuses a migration exactly if one of its insertions meets a row of its identifier. */
  lemma RefusedExactly(t: Tables, run: RunId, entries: seq<Entry>)
    ensures ImportedAll(t, run, entries).None? <==> exists i :: 0 <= i < |entries| && Clashes(t, entries, i)
  {
    assert entries[..|entries|] == entries;
    RefusedPrefix(t, run, entries, |entries|);
  }
}
