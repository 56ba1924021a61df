/** The forward steps of `apply_account_change_plan`, one method per loop. */
module AccountPhases {
  import opened Text
  import opened TaskConfig
  import opened FileTree
  import opened PathOrder
  import opened StagedChange
  import opened StagedTree
  import opened AccountFiles

  /** `w` may be changed further, and what a phase never touches is as before. */
  twostate predicate Kept(w: StagedTree)
    reads w
  {
    w.base == old(w.base)
  }

  ghost predicate Ready(w: StagedTree)
    reads w
  {
    Honest(w.tear) && Orderly(w.State())
  }

  /** `created` lies outside the directory `area`. */
  ghost predicate Outside(created: seq<Path>, area: Path)
  {
    forall c :: c in created ==> Apart(c, area)
  }

  /** Every created path is a destination already reached. */
  ghost predicate CreatedBy(created: seq<Path>, done: set<Path>, dest: Path -> Path)
  {
    forall c :: c in created ==> exists s :: s in done && c == dest(s)
  }

  /** Rename the session and avatar files, in any order. */
  method MoveSidecars(w: StagedTree, files: set<Path>, l: Layout, oldName: string, newName: string) returns (ok: bool)
    requires Ready(w) && l.Valid() && oldName != newName && files <= Sidecars(l, oldName)
    requires w.created == [] && w.edited == {}
    modifies w
    ensures Recorded(w.State()) && Kept(w) && w.edited == {} && w.pruned == old(w.pruned)
    ensures ok ==> Orderly(w.State()) && Outside(w.created, l.signs) && Outside(w.created, l.history)
    ensures ok ==> Moved(old(w.fs), w.fs, files, SidecarMove(oldName, newName), Unchanged)
    ensures Calm(w.tear) ==>
      (forall s :: s in files ==> s in old(w.fs) && SidecarDest(s, oldName, newName) !in old(w.fs)) ==> ok
  {
    ghost var dest := SidecarMove(oldName, newName);
    SidecarPlan(l, oldName, newName, files);
    ghost var t := w.fs;
    var todo := files;
    ok := true;
    while todo != {}
      invariant todo <= files && Ready(w) && Kept(w) && w.edited == {} && w.pruned == old(w.pruned)
      invariant Moved(t, w.fs, files - todo, dest, Unchanged)
      invariant CreatedBy(w.created, files - todo, dest)
      invariant ok
      decreases todo
    {
      var p :| p in todo;
      ok := MoveSidecar(w, files, oldName, newName, p, t, files - todo);
      if !ok { return; }
      assert files - (todo - {p}) == files - todo + {p};
      todo := todo - {p};
    }
    assert files - todo == files;
    SidecarsOutside(w.created, files, l, oldName, newName);
  }

  /** The body of the loop. */
  method MoveSidecar(w: StagedTree, ghost files: set<Path>, oldName: string, newName: string, p: Path, ghost t: Tree,
                     ghost done: set<Path>)
    returns (ok: bool)
    requires Ready(w) && w.edited == {} && WellFormed(t) && p in files && p !in done && done <= files
    requires MovePlan(files, SidecarMove(oldName, newName))
    requires Moved(t, w.fs, done, SidecarMove(oldName, newName), Unchanged)
    requires CreatedBy(w.created, done, SidecarMove(oldName, newName))
    modifies w`fs, w`snapshots, w`created, w`steps
    ensures Recorded(w.State())
    ensures ok ==> Orderly(w.State()) && CreatedBy(w.created, done + {p}, SidecarMove(oldName, newName))
    ensures ok ==> Moved(t, w.fs, done + {p}, SidecarMove(oldName, newName), Unchanged)
    ensures Calm(w.tear) && p in t && SidecarDest(p, oldName, newName) !in t ==> ok
  {
    ghost var dest := SidecarMove(oldName, newName);
    StillToMove(t, w.fs, files, done, dest, Unchanged, p);
    ghost var u := w.fs;
    ok := w.Move(p, SidecarDest(p, oldName, newName));
    if !ok { return; }
    MovedByRename(t, u, w.fs, files, done, dest, Unchanged, p);
  }

  lemma SidecarsOutside(created: seq<Path>, files: set<Path>, l: Layout, oldName: string, newName: string)
    requires l.Valid() && files <= Sidecars(l, oldName)
    requires CreatedBy(created, files, SidecarMove(oldName, newName))
    ensures Outside(created, l.signs) && Outside(created, l.history)
  {
    forall c | c in created ensures Apart(c, l.signs) && Apart(c, l.history) {
      var s :| s in files && c == SidecarDest(s, oldName, newName);
      var e := SidecarShape(l, oldName, s);
      assert Under(c.parent, c);
      ApartChildren(c.parent, l.signs, c, l.signs);
      ApartChildren(c.parent, l.history, c, l.history);
    }
  }

  /** Files that may be snapshotted and removed, in any order. */
  ghost predicate Erasable(w: StagedTree, files: set<Path>)
    reads w
  {
    && (forall s :: s in files ==> (s in w.snapshots || s !in w.edited) && Outside(w.created, s))
    && (forall s, r :: s in files && r in files && s != r ==> Apart(s, r))
  }

  /** Remove files one by one: the session files of a deleted account, or its history. */
  method EraseFiles(w: StagedTree, files: set<Path>) returns (ok: bool)
    requires Ready(w) && Erasable(w, files)
    modifies w`fs, w`snapshots, w`steps
    ensures Recorded(w.State()) && (ok ==> Orderly(w.State()) && Erased(old(w.fs), w.fs, files))
    ensures w.snapshots.Keys <= old(w.snapshots.Keys) + files
    ensures Calm(w.tear) && (forall s :: s in files ==> IsFile(old(w.fs), s)) ==> ok
  {
    ghost var t := w.fs;
    var todo := files;
    ok := true;
    while todo != {}
      invariant todo <= files && Ready(w) && ok && Erasable(w, files)
      invariant Erased(t, w.fs, files - todo) && w.snapshots.Keys <= old(w.snapshots.Keys) + files
      decreases todo
    {
      var p :| p in todo;
      ok := EraseOne(w, files, p, t, files - todo);
      if !ok { return; }
      assert files - (todo - {p}) == files - todo + {p};
      todo := todo - {p};
    }
    assert files - todo == files;
  }

  /** The body of the loop. */
  method EraseOne(w: StagedTree, ghost files: set<Path>, p: Path, ghost t: Tree, ghost done: set<Path>)
    returns (ok: bool)
    requires Ready(w) && p in files && p !in done && done <= files && Erased(t, w.fs, done)
    requires Erasable(w, files)
    modifies w`fs, w`snapshots, w`steps
    ensures Recorded(w.State()) && (ok ==> Orderly(w.State()) && Erased(t, w.fs, done + {p})) && Erasable(w, files)
    ensures Added(old(w.snapshots), w.snapshots, p)
    ensures Calm(w.tear) && IsFile(t, p) ==> ok
  {
    assert Same(t, w.fs, p) by {
      forall s | s in done ensures !Under(s, p) { assert Apart(s, p); }
    }
    ErasedStep(t, w.fs, done, p);
    ok := w.Erase(p, false);
  }

  /** The edited files are configurations handled so far, each snapshotted itself or through its task directory. */
  ghost predicate EditsIn(w: StagedTree, configs: map<Path, Item>, done: set<Path>)
    reads w
  {
    forall p :: p in w.edited ==> p in done && p in configs && (configs[p].owned || p in w.snapshots)
  }

  /** What is snapshotted for a configuration: its whole task directory, or the single file. */
  function Target(configs: map<Path, Item>, p: Path): Path
    requires p in configs
  {
    if configs[p].owned && p.In? then p.parent else p
  }

  function Targets(configs: map<Path, Item>): set<Path>
  {
    set p | p in configs :: Target(configs, p)
  }

  /**
   * Rewrite every inventoried configuration, or remove the task directory of a deleted account, in the order of the
   * sorted list.  It ends exactly if no directory is removed before a configuration inside it is handled.
   */
  method RewriteConfigs(w: StagedTree, configs: map<Path, Item>, l: Layout, op: Operation, oldName: string)
    returns (ok: bool)
    requires Ready(w) && w.edited == {} && Outside(w.created, l.signs) && InventoryOf(w.fs, l, configs)
    modifies w`fs, w`snapshots, w`steps, w`edited
    ensures Recorded(w.State())
    ensures ok ==> Orderly(w.State()) && EditsIn(w, configs, configs.Keys)
    ensures ok ==> Configured(op, oldName, old(w.fs), w.fs, configs, configs.Keys)
    ensures w.snapshots.Keys <= old(w.snapshots.Keys) + Targets(configs)
    ensures ok ==> op.Rename? || NestedFirst(configs, configs.Keys)
    ensures Calm(w.tear) && (op.Rename? || NestedFirst(configs, configs.Keys)) ==> ok
  {
    ghost var t := w.fs;
    var todo := configs.Keys;
    ok := true;
    while todo != {}
      invariant todo <= configs.Keys && ok && Rewriting(w, configs, op, oldName, t, configs.Keys - todo)
      invariant w.snapshots.Keys <= old(w.snapshots.Keys) + Targets(configs)
      invariant Sorted(configs.Keys - todo, todo)
      decreases todo
    {
      FirstExists(todo);
      var p :| IsFirst(p, todo);
      ghost var done := configs.Keys - todo;
      ok := RewriteNext(w, configs, l, op, oldName, p, t, done);
      if !ok { return; }
      todo := todo - {p};
      assert configs.Keys - todo == done + {p};
    }
    assert configs.Keys - todo == configs.Keys;
  }

  /** The configurations in `done` are handled. */
  ghost predicate Rewriting(w: StagedTree, configs: map<Path, Item>, op: Operation, oldName: string, t: Tree,
                            done: set<Path>)
    reads w
  {
    && Ready(w) && EditsIn(w, configs, done) && Configured(op, oldName, t, w.fs, configs, done)
    && (op.Rename? || NestedFirst(configs, done))
  }

  method RewriteNext(w: StagedTree, configs: map<Path, Item>, l: Layout, op: Operation, oldName: string, p: Path,
                     ghost t: Tree, ghost done: set<Path>) returns (ok: bool)
    requires WellFormed(t) && Outside(w.created, l.signs) && InventoryOf(t, l, configs)
    requires p in configs && p !in done && done <= configs.Keys && forall q :: q in done ==> Before(q, p)
    requires Rewriting(w, configs, op, oldName, t, done)
    modifies w`fs, w`snapshots, w`steps, w`edited
    ensures Recorded(w.State()) && Added(old(w.snapshots), w.snapshots, Target(configs, p))
    ensures ok ==> Rewriting(w, configs, op, oldName, t, done + {p})
    ensures Calm(w.tear) && (op.Rename? || NestedFirst(configs, configs.Keys)) ==> ok
  {
    ok := RewriteConfig(w, configs, l, op, oldName, p, t, done);
    if op.Delete? && NestedFirst(configs, configs.Keys) { NestedStillThere(configs, done, p); }
    if op.Delete? && ok { NestedStep(configs, done, p); }
  }

  /** What is done comes before what is still to do. */
  ghost predicate Sorted(done: set<Path>, todo: set<Path>)
  {
    forall p, q :: p in done && q in todo ==> Before(p, q)
  }

  /** The body of the loop: snapshot the task directory or the single file, then remove or rewrite. */
  method RewriteConfig(w: StagedTree, configs: map<Path, Item>, l: Layout, op: Operation, oldName: string, p: Path,
                       ghost t: Tree, ghost done: set<Path>) returns (ok: bool)
    requires Ready(w) && WellFormed(t) && Outside(w.created, l.signs) && InventoryOf(t, l, configs)
    requires p in configs && p !in done && done <= configs.Keys
    requires EditsIn(w, configs, done) && Configured(op, oldName, t, w.fs, configs, done)
    modifies w`fs, w`snapshots, w`steps, w`edited
    ensures Recorded(w.State())
    ensures ok ==> Orderly(w.State()) && EditsIn(w, configs, done + {p})
    ensures ok ==> Configured(op, oldName, t, w.fs, configs, done + {p})
    ensures Added(old(w.snapshots), w.snapshots, Target(configs, p))
    ensures ok ==> op.Rename? || !InTaskOf(configs, done, p)
    ensures Calm(w.tear) && (op.Rename? || !InTaskOf(configs, done, p)) ==> ok
  {
    var item, target := configs[p], Target(configs, p);
    StillToConfigure(op, oldName, t, w.fs, l, configs, done, p);
    assert target !in w.edited by { assert target in w.edited ==> IsFile(t, target); }
    assert Under(p.parent, p);
    OutsideBelow(w.created, l.signs, target);
    if op.Delete? && item.owned {
      ConfiguredByErase(op, oldName, t, w.fs, configs, done, p);
      ok := w.Erase(p.parent, true);
    } else {
      ok := w.Snapshot(target);
      if !ok { return; }
      if p in w.fs { ConfiguredByEdit(op, oldName, t, w.fs, configs, done, p); }
      ok := w.Rewrite(p, Task(Rewritten(op, oldName, item.config)));
    }
  }

  lemma OutsideBelow(created: seq<Path>, area: Path, p: Path)
    requires Outside(created, area) && Under(area, p)
    ensures Outside(created, p)
  {
    forall c | c in created ensures Apart(c, p) { ApartChildren(c, area, c, p); }
  }

  /** Move, prune or remove the account's own task directory. */
  method RetireDirectory(w: StagedTree, l: Layout, op: Operation, oldName: string) returns (ok: bool)
    requires Ready(w) && w.pruned == {} && Outside(w.created, l.signs) && (op.Delete? ==> w.created == [])
    requires op.Rename? ==> op.newName != oldName
    requires In(l.signs, oldName) in w.snapshots || In(l.signs, oldName) !in w.edited
    modifies w`fs, w`snapshots, w`created, w`steps, w`pruned
    ensures Recorded(w.State()) && w.pruned <= {In(l.signs, oldName)} && (op.Rename? ==> w.pruned == {})
    ensures ok ==> Orderly(w.State()) && w.fs == Retired(old(w.fs), l, op, oldName)
    ensures ok ==> forall c :: c in w.created ==> c in old(w.created) || (op.Rename? && c == In(l.signs, op.newName))
    ensures ok && op.Delete? && IsEmptyDir(old(w.fs), In(l.signs, oldName)) ==>
      w.snapshots == old(w.snapshots) && w.pruned == {In(l.signs, oldName)}
    ensures ok ==> CanRetire(old(w.fs), l, op, oldName)
    ensures Calm(w.tear) && CanRetire(old(w.fs), l, op, oldName) ==> ok
  {
    match op
    case Rename(newName) => ok := MoveDirectory(w, l, oldName, newName);
    case Delete(_) =>
      var d := In(l.signs, oldName);
      if IsFile(w.fs, d) { return false; }
      ok := true;
      if d in w.fs {
        ok := RemoveDirectory(w, d);
      } else {
        assert Remove(w.fs, d) == w.fs;
      }
  }

  method MoveDirectory(w: StagedTree, l: Layout, oldName: string, newName: string) returns (ok: bool)
    requires Ready(w) && Outside(w.created, l.signs) && newName != oldName
    requires In(l.signs, oldName) in w.snapshots || In(l.signs, oldName) !in w.edited
    modifies w`fs, w`snapshots, w`created, w`steps
    ensures Recorded(w.State())
    ensures ok ==> Orderly(w.State()) && w.fs == Retired(old(w.fs), l, Rename(newName), oldName)
    ensures ok ==> forall c :: c in w.created ==> c in old(w.created) || c == In(l.signs, newName)
    ensures ok ==> CanRetire(old(w.fs), l, Rename(newName), oldName)
    ensures Calm(w.tear) && CanRetire(old(w.fs), l, Rename(newName), oldName) ==> ok
  {
    var oldDir := In(l.signs, oldName);
    ok := true;
    assert Under(l.signs, oldDir);
    OutsideBelow(w.created, l.signs, oldDir);
    if oldDir in w.fs {
      SiblingsApart(l.signs, oldName, newName);
      ok := w.Move(oldDir, In(l.signs, newName));
    }
  }

  /** `rmdir` if the directory is empty, `rmtree` after a snapshot if not. */
  method RemoveDirectory(w: StagedTree, d: Path) returns (ok: bool)
    requires Ready(w) && w.pruned == {} && w.created == [] && (d in w.snapshots || d !in w.edited)
    requires d in w.fs && w.fs[d].Dir?
    modifies w`fs, w`snapshots, w`steps, w`pruned
    ensures Recorded(w.State()) && w.pruned <= {d}
    ensures ok && IsEmptyDir(old(w.fs), d) ==> w.snapshots == old(w.snapshots) && w.pruned == {d}
    ensures ok ==> Orderly(w.State()) && w.fs == Remove(old(w.fs), d)
    ensures Calm(w.tear) ==> ok
  {
    if IsEmptyDir(w.fs, d) {
      assert !UnderCreated(w.created, d);
      ok := w.RemoveEmpty(d);
    } else {
      ok := w.Erase(d, true);
    }
  }

  /** A destination in the history directory, or a path away from it. */
  ghost predicate HistoryCreated(created: seq<Path>, l: Layout, done: set<Path>, newName: string)
  {
    forall c :: c in created ==> Apart(c, l.history) || exists s :: s in done && c == HistoryDest(s, newName)
  }

  lemma HistoryCreatedApart(created: seq<Path>, l: Layout, hist: set<Path>, oldName: string, newName: string, p: Path)
    requires oldName != newName && (forall s :: s in hist ==> IsHistoryFile(l, oldName, s))
    requires HistoryCreated(created, l, hist, newName) && p in hist
    ensures Outside(created, p)
  {
    HistoryPlan(l, oldName, newName, hist);
    forall c | c in created ensures Apart(c, p) {
      assert Under(l.history, p);
      if Apart(c, l.history) {
        ApartChildren(c, l.history, c, p);
      } else {
        var s :| s in hist && c == HistoryDest(s, newName);
        assert Apart(p, c);
      }
    }
  }

  /** Rename the history files and the entries in them, in any order. */
  method MigrateHistory(w: StagedTree, hist: set<Path>, l: Layout, oldName: string, newName: string) returns (ok: bool)
    requires Ready(w) && oldName != newName && Outside(w.created, l.history)
    requires forall s :: s in hist ==> IsHistoryFile(l, oldName, s) && s !in w.edited
    modifies w`fs, w`snapshots, w`created, w`steps
    ensures Recorded(w.State())
    ensures ok ==> Orderly(w.State()) && HistoryCreated(w.created, l, hist, newName)
    ensures ok ==> Moved(old(w.fs), w.fs, hist, HistoryMove(newName), EntryRename(oldName, newName))
    ensures ok ==> CanMigrate(old(w.fs), hist, newName)
    ensures Calm(w.tear) && CanMigrate(old(w.fs), hist, newName) ==> ok
  {
    ghost var dest := HistoryMove(newName);
    ghost var f := EntryRename(oldName, newName);
    HistoryPlan(l, oldName, newName, hist);
    ghost var t := w.fs;
    var todo := hist;
    ok := true;
    while todo != {}
      invariant todo <= hist && Ready(w) && ok
      invariant Moved(t, w.fs, hist - todo, dest, f)
      invariant HistoryCreated(w.created, l, hist - todo, newName)
      invariant CanMigrate(t, hist - todo, newName)
      decreases todo
    {
      var p :| p in todo;
      ok := MigrateOne(w, hist, l, oldName, newName, p, t, hist - todo);
      if !ok { return; }
      assert hist - (todo - {p}) == hist - todo + {p};
      todo := todo - {p};
    }
    assert hist - todo == hist;
  }

  /** The body of the loop: read the payload, move the file, write the renamed entries. */
  method MigrateOne(w: StagedTree, ghost hist: set<Path>, ghost l: Layout, oldName: string, newName: string, p: Path,
                    ghost t: Tree, ghost done: set<Path>) returns (ok: bool)
    requires Ready(w) && oldName != newName && HistoryCreated(w.created, l, done, newName)
    requires forall s :: s in hist ==> IsHistoryFile(l, oldName, s) && s !in w.edited
    requires p in hist && p !in done && done <= hist
    requires Moved(t, w.fs, done, HistoryMove(newName), EntryRename(oldName, newName))
    modifies w`fs, w`snapshots, w`created, w`steps
    ensures Recorded(w.State())
    ensures ok ==> Orderly(w.State()) && HistoryCreated(w.created, l, done + {p}, newName)
    ensures ok ==> Moved(t, w.fs, done + {p}, HistoryMove(newName), EntryRename(oldName, newName))
    ensures ok ==> CanMigrate(t, {p}, newName)
    ensures Calm(w.tear) && CanMigrate(t, {p}, newName) ==> ok
  {
    ghost var dest := HistoryMove(newName);
    ghost var f := EntryRename(oldName, newName);
    HistoryPlan(l, oldName, newName, hist);
    ghost var u := w.fs;
    StillToMove(t, u, hist, done, dest, f, p);
    if !IsFile(w.fs, p) || w.fs[p].content.Blob? { return false; }
    var payload := w.fs[p].content;
    HistoryCreatedApart(w.created, l, hist, oldName, newName, p);
    assert Apart(p, dest(p));
    ok := w.Move(p, HistoryDest(p, newName));
    if !ok { return; }
    MovedNode(u, p, dest(p));
    ok := w.WriteCreated(HistoryDest(p, newName), RenameHistory(payload, oldName, newName));
    if !ok { return; }
    MovedByRename(t, u, w.fs, hist, done, dest, f, p);
  }

  lemma MovedNode(u: Tree, p: Path, d: Path)
    requires WellFormed(u) && p in u && d !in u && Apart(p, d) && p.In? && d.In? && p.parent == d.parent
    ensures d in MoveTree(u, p, d) && MoveTree(u, p, d)[d] == u[p]
    ensures d.parent in MoveTree(u, p, d) && MoveTree(u, p, d)[d.parent].Dir?
  {
    MoveTreeAt(u, p, d, d);
    MoveTreeAt(u, p, d, d.parent);
    assert Under(d.parent, d) && Under(p.parent, p);
    UnderDepth(d.parent, d.parent);
  }

  /**
   * Rebuild the history index.  `content` is whatever the scan produces, or None if the write fails with an
   * operating-system error, which is only logged; so is the failure of a write over a directory or below a file.
   */
  method RebuildIndex(w: StagedTree, l: Layout, content: Option<Content>) returns (ok: bool)
    requires Ready(w) && IndexPath(l) !in w.edited && Outside(w.created, IndexPath(l))
    modifies w`fs, w`snapshots, w`created, w`steps, w`edited
    ensures Recorded(w.State())
    ensures ok ==> Orderly(w.State()) && forall q :: q != IndexPath(l) ==> Same(old(w.fs), w.fs, q)
    ensures Calm(w.tear) ==> ok
  {
    var index := IndexPath(l);
    if index in w.fs {
      ok := ReplaceIndex(w, index, content);
    } else {
      ok := CreateIndex(w, index, content);
    }
  }

  method ReplaceIndex(w: StagedTree, index: Path, content: Option<Content>) returns (ok: bool)
    requires Ready(w) && index.In? && index in w.fs && index !in w.edited && Outside(w.created, index)
    modifies w`fs, w`snapshots, w`steps, w`edited
    ensures Recorded(w.State())
    ensures ok ==> Orderly(w.State()) && forall q :: q != index ==> Same(old(w.fs), w.fs, q)
    ensures Calm(w.tear) ==> ok
  {
    ok := w.Snapshot(index);
    if !ok { return; }
    if content.None? || w.fs[index].Dir? {
      ok := w.Step();
    } else {
      ok := w.Rewrite(index, content.value);
    }
  }

  /** A missing history directory leaves the index unwritten but announced. */
  method CreateIndex(w: StagedTree, index: Path, content: Option<Content>) returns (ok: bool)
    requires Ready(w) && index.In? && index !in w.fs
    modifies w`fs, w`created, w`steps
    ensures Recorded(w.State())
    ensures ok ==> Orderly(w.State()) && forall q :: q != index ==> Same(old(w.fs), w.fs, q)
    ensures Calm(w.tear) ==> ok
  {
    w.Announce(index);
    if content.None? || index.parent !in w.fs || w.fs[index.parent].File? {
      ok := w.Step();
    } else {
      ok := w.WriteCreated(index, content.value);
    }
  }
}
