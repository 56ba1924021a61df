/** From the effects of the single steps to the specification of a finished change, and what it guarantees. */
module FinishedChange {
  import opened Text
  import opened TaskConfig
  import opened FileTree
  import opened AccountFiles

  /** The trees between the steps of a change that runs from `b` to `t`. */
  datatype Trail = Trail(b: Tree, sidecars: Tree, configured: Tree, retired: Tree, migrated: Tree, t: Tree)

  ghost predicate SidecarsDone(b: Tree, u: Tree, l: Layout, op: Operation, oldName: string)
  {
    var files := ExistingSidecars(b, l, oldName);
    match op
    case Rename(newName) => Moved(b, u, files, SidecarMove(oldName, newName), Unchanged)
    case Delete(_) => Erased(b, u, files)
  }

  ghost predicate TasksDone(u: Tree, c: Tree, r: Tree, l: Layout, op: Operation, oldName: string,
                            configs: map<Path, Item>)
  {
    Configured(op, oldName, u, c, configs, configs.Keys) && r == Retired(c, l, op, oldName)
  }

  ghost predicate HistoryDone(r: Tree, m: Tree, l: Layout, op: Operation, oldName: string, hist: set<Path>)
  {
    match op
    case Rename(newName) => Moved(r, m, hist, HistoryMove(newName), EntryRename(oldName, newName))
    case Delete(purge) => if purge then Erased(r, m, hist) else m == r
  }

  ghost predicate Steps(x: Trail, l: Layout, op: Operation, oldName: string, configs: map<Path, Item>)
  {
    && SidecarsDone(x.b, x.sidecars, l, op, oldName)
    && TasksDone(x.sidecars, x.configured, x.retired, l, op, oldName, configs)
    && HistoryDone(x.retired, x.migrated, l, op, oldName, HistoryFiles(x.b, l, oldName))
    && forall q :: q != IndexPath(l) ==> Same(x.migrated, x.t, q)
  }

  ghost predicate Start(b: Tree, l: Layout, op: Operation, oldName: string, configs: map<Path, Item>)
  {
    && WellFormed(b) && l.Valid() && ValidName(oldName) && InventoryOf(b, l, configs)
    && (op.Rename? ==> ValidName(op.newName) && op.newName != oldName && In(l.signs, op.newName) !in b)
  }

  lemma SidecarStepConfined(b: Tree, u: Tree, l: Layout, op: Operation, oldName: string, q: Path)
    requires SidecarsDone(b, u, l, op, oldName) && !Under(l.sessions, q) && !Under(l.avatars, q)
    ensures Same(b, u, q)
  {
    var files := ExistingSidecars(b, l, oldName);
    forall s | s in files
      ensures !Under(s, q) && (op.Rename? ==> !Under(SidecarDest(s, oldName, op.newName), q))
    {
      var e := SidecarShape(l, oldName, s);
      Confined(s.parent, s, q);
      if op.Rename? { Confined(s.parent, SidecarDest(s, oldName, op.newName), q); }
    }
    match op
    case Rename(newName) => assert MovedAt(b, u, files, SidecarMove(oldName, newName), Unchanged, q);
    case Delete(_) => assert !UnderAny(files, q);
  }

  lemma Confined(area: Path, s: Path, q: Path)
    requires s.In? && s.parent == area && !Under(area, q)
    ensures !Under(s, q)
  {
    assert Under(area, s);
    if Under(s, q) { UnderTrans(area, s, q); }
  }

  lemma TaskStepsConfined(b: Tree, u: Tree, c: Tree, r: Tree, l: Layout, op: Operation, oldName: string,
                          configs: map<Path, Item>, q: Path)
    requires TasksDone(u, c, r, l, op, oldName, configs) && Start(b, l, op, oldName, configs) && !Under(l.signs, q)
    ensures Same(u, r, q)
  {
    assert ConfiguredAt(op, oldName, u, c, configs, configs.Keys, q);
    if p :| p in configs.Keys && p in configs && configs[p].owned && p.In? && Under(p.parent, q) {
      UnderTrans(l.signs, p.parent, q);
    }
    assert Same(u, c, q);
    Confined(l.signs, In(l.signs, oldName), q);
    if op.Rename? {
      Confined(l.signs, In(l.signs, op.newName), q);
      SiblingsApart(l.signs, oldName, op.newName);
      MoveTreeAt(c, In(l.signs, oldName), In(l.signs, op.newName), q);
    }
  }

  lemma HistoryStepConfined(x: Trail, l: Layout, op: Operation, oldName: string, configs: map<Path, Item>, q: Path)
    requires Steps(x, l, op, oldName, configs) && !Under(l.history, q)
    ensures Same(x.retired, x.t, q)
  {
    var hist := HistoryFiles(x.b, l, oldName);
    forall s | s in hist ensures !Under(s, q) && (op.Rename? ==> !Under(HistoryMove(op.newName)(s), q)) {
      Confined(l.history, s, q);
      if op.Rename? { Confined(l.history, HistoryDest(s, op.newName), q); }
    }
    assert q != IndexPath(l) by { assert Under(l.history, IndexPath(l)); }
    assert Same(x.migrated, x.t, q);
    if op.Rename? {
      assert MovedAt(x.retired, x.migrated, hist, HistoryMove(op.newName), EntryRename(oldName, op.newName), q);
      assert Same(x.retired, x.migrated, q);
    } else {
      assert !UnderAny(hist, q);
    }
  }

  /** The four areas are disjoint, so each step is alone responsible for its own. */
  lemma AreasDisjoint(l: Layout, q: Path)
    requires l.Valid()
    ensures Under(l.signs, q) ==> !Under(l.sessions, q) && !Under(l.avatars, q) && !Under(l.history, q)
    ensures Under(l.history, q) ==> !Under(l.sessions, q) && !Under(l.avatars, q) && !Under(l.signs, q)
    ensures Under(l.sessions, q) || Under(l.avatars, q) ==> !Under(l.signs, q) && !Under(l.history, q)
  {
    if Under(l.signs, q) {
      ApartBelow(l.signs, l.sessions, q);
      ApartBelow(l.signs, l.avatars, q);
      ApartBelow(l.signs, l.history, q);
    }
    if Under(l.history, q) { ApartBelow(l.history, l.sessions, q); ApartBelow(l.history, l.avatars, q); }
  }

  /**
   * Before the account's own directory is renamed, a path below the task directory differs at most by its
   * configuration.
   */
  lemma TaskConfigured(x: Trail, l: Layout, op: Operation, oldName: string, configs: map<Path, Item>, q: Path)
    requires Steps(x, l, op, oldName, configs) && Start(x.b, l, op, oldName, configs) && Under(l.signs, q) && op.Rename?
    ensures MigratedFrom(x.b, x.configured, op, oldName, configs, q, q)
  {
    AreasDisjoint(l, q);
    SidecarStepConfined(x.b, x.sidecars, l, op, oldName, q);
    assert ConfiguredAt(op, oldName, x.sidecars, x.configured, configs, configs.Keys, q);
    if q in configs { assert IsFile(x.b, q); }
  }

  lemma TasksRenamed(x: Trail, l: Layout, op: Operation, oldName: string, configs: map<Path, Item>, q: Path)
    requires Steps(x, l, op, oldName, configs) && Start(x.b, l, op, oldName, configs) && Under(l.signs, q) && op.Rename?
    ensures TaskApplied(x.b, x.retired, l, op, oldName, configs, q)
  {
    var oldDir, newDir := In(l.signs, oldName), In(l.signs, op.newName);
    SiblingsApart(l.signs, oldName, op.newName);
    MoveTreeAt(x.configured, oldDir, newDir, q);
    assert Under(l.signs, oldDir) && Under(l.signs, newDir);
    TaskConfigured(x, l, op, oldName, configs, q);
    TaskConfigured(x, l, op, oldName, configs, oldDir);
    if Under(oldDir, q) {
      ApartBelow(oldDir, newDir, q);
      assert q in x.b ==> oldDir in x.b;
    } else if Under(newDir, q) {
      var source := Rebase(q, newDir, oldDir);
      UnderTrans(l.signs, oldDir, source);
      TaskConfigured(x, l, op, oldName, configs, source);
      assert q !in x.b;
      assert source in x.b ==> oldDir in x.b;
    }
  }

  /** The tree that the task steps leave is as `TaskApplied` says. */
  lemma TasksApplied(x: Trail, l: Layout, op: Operation, oldName: string, configs: map<Path, Item>, q: Path)
    requires Steps(x, l, op, oldName, configs) && Start(x.b, l, op, oldName, configs) && Under(l.signs, q)
    ensures TaskApplied(x.b, x.t, l, op, oldName, configs, q)
  {
    AreasDisjoint(l, q);
    HistoryStepConfined(x, l, op, oldName, configs, q);
    if op.Rename? {
      TasksRenamed(x, l, op, oldName, configs, q);
    } else {
      SidecarStepConfined(x.b, x.sidecars, l, op, oldName, q);
      assert ConfiguredAt(op, oldName, x.sidecars, x.configured, configs, configs.Keys, q);
    }
  }

  lemma SidecarsApplied(x: Trail, l: Layout, op: Operation, oldName: string, configs: map<Path, Item>, q: Path)
    requires Steps(x, l, op, oldName, configs) && Start(x.b, l, op, oldName, configs)
    requires Under(l.sessions, q) || Under(l.avatars, q)
    ensures AppliedAt(x.b, x.t, l, op, oldName, configs, q)
  {
    AreasDisjoint(l, q);
    TaskStepsConfined(x.b, x.sidecars, x.configured, x.retired, l, op, oldName, configs, q);
    HistoryStepConfined(x, l, op, oldName, configs, q);
    if op.Rename? {
      assert MovedAt(x.b, x.sidecars, ExistingSidecars(x.b, l, oldName), SidecarMove(oldName, op.newName), Unchanged,
        q);
    }
  }

  lemma HistoryApplied(x: Trail, l: Layout, op: Operation, oldName: string, configs: map<Path, Item>, q: Path)
    requires Steps(x, l, op, oldName, configs) && Start(x.b, l, op, oldName, configs) && Under(l.history, q)
    ensures AppliedAt(x.b, x.t, l, op, oldName, configs, q)
  {
    forall r | Under(l.history, r) ensures Same(x.b, x.retired, r) {
      AreasDisjoint(l, r);
      SidecarStepConfined(x.b, x.sidecars, l, op, oldName, r);
      TaskStepsConfined(x.b, x.sidecars, x.configured, x.retired, l, op, oldName, configs, r);
    }
    AreasDisjoint(l, q);
    var hist := HistoryFiles(x.b, l, oldName);
    assert forall s :: s in hist ==> Under(l.history, s);
    if q != IndexPath(l) {
      assert Same(x.migrated, x.t, q);
      if op.Rename? {
        HistoryMovedFrom(x.b, x.retired, x.migrated, x.t, hist, HistoryMove(op.newName),
          EntryRename(oldName, op.newName), q);
      }
    }
  }

  lemma HistoryMovedFrom(b: Tree, r: Tree, m: Tree, t: Tree, hist: set<Path>, dest: Path -> Path, f: Content -> Content,
                         q: Path)
    requires Moved(r, m, hist, dest, f) && Same(m, t, q) && Same(b, r, q)
    requires forall s :: s in hist ==> Same(b, r, s)
    ensures MovedAt(b, t, hist, dest, f, q)
  {
    assert MovedAt(r, m, hist, dest, f, q);
  }

  /** Every path after a completed change is as specified. */
  lemma ChangeApplied(x: Trail, l: Layout, op: Operation, oldName: string, configs: map<Path, Item>)
    requires Steps(x, l, op, oldName, configs) && Start(x.b, l, op, oldName, configs)
    ensures Applied(x.b, x.t, l, op, oldName, configs)
  {
    forall q ensures AppliedAt(x.b, x.t, l, op, oldName, configs, q) {
      if Under(l.signs, q) {
        TasksApplied(x, l, op, oldName, configs, q);
      } else if Under(l.sessions, q) || Under(l.avatars, q) {
        SidecarsApplied(x, l, op, oldName, configs, q);
      } else if Under(l.history, q) {
        HistoryApplied(x, l, op, oldName, configs, q);
      } else {
        SidecarStepConfined(x.b, x.sidecars, l, op, oldName, q);
        TaskStepsConfined(x.b, x.sidecars, x.configured, x.retired, l, op, oldName, configs, q);
        HistoryStepConfined(x, l, op, oldName, configs, q);
      }
    }
  }

  // ---------- validation ----------

  lemma InventoryIsInventory(b: Tree, l: Layout, name: string)
    requires ConfigsParse(b, l)
    ensures InventoryOf(b, l, Inventory(b, l, name))
  {
    forall q | q in b && Owned(l, name, q, Config(Some(name), None, true, "")) && Under(l.signs, q)
      ensures Under(l.signs, q.parent) && q.parent != l.signs
    {
      UnderDepth(l.signs, q);
      assert Under(l.signs, In(l.signs, name));
      assert Under(l.signs, q.parent.parent) && Under(q.parent.parent, q.parent);
      UnderTrans(l.signs, q.parent.parent, q.parent);
      UnderDepth(l.signs, q.parent.parent);
      assert Depth(q.parent) == 1 + Depth(q.parent.parent);
    }
  }

  /**
   * Renamed to `config.json`, an account's own directory takes the place of a configuration of the whole task
   * directory.  It reads as one only if it is no directory but a file that holds a JSON object without the old name.
   */
  predicate ReadsAsConfig(b: Tree, l: Layout, op: Operation, oldName: string)
  {
    op.Rename? && op.newName == "config.json" && In(l.signs, oldName) in b ==>
      && IsFile(b, In(l.signs, oldName)) && b[In(l.signs, oldName)].content.Task?
      && !References(b[In(l.signs, oldName)].content.config, oldName)
  }

  /** The configuration that ends up at `q`, which is not the place of the account's own directory. */
  lemma SourceIsConfig(b: Tree, l: Layout, op: Operation, oldName: string, q: Path) returns (source: Path)
    requires ConfigsParse(b, l) && Start(b, l, op, oldName, Inventory(b, l, oldName)) && IsConfigPath(l, q)
    requires op.Rename? ==> q != In(l.signs, op.newName)
    ensures source ==
      if op.Rename? && Under(In(l.signs, op.newName), q) then Rebase(q, In(l.signs, op.newName), In(l.signs, oldName))
      else q
    ensures IsConfigPath(l, source)
  {
    source := q;
    if op.Rename? && Under(In(l.signs, op.newName), q) {
      var oldDir, newDir := In(l.signs, oldName), In(l.signs, op.newName);
      source := Rebase(q, newDir, oldDir);
      assert Under(l.signs, oldDir);
      UnderTrans(l.signs, oldDir, source);
      UnderDepth(oldDir, source);
      UnderDepth(l.signs, oldDir);
    }
  }

  /** What a rename leaves at the new place of the account's own directory. */
  lemma OwnDirectoryMoved(b: Tree, t: Tree, l: Layout, op: Operation, oldName: string)
    requires ConfigsParse(b, l) && Start(b, l, op, oldName, Inventory(b, l, oldName))
    requires Applied(b, t, l, op, oldName, Inventory(b, l, oldName)) && op.Rename? && op.newName == "config.json"
    ensures var d, n := In(l.signs, oldName), In(l.signs, op.newName);
      IsConfigPath(l, n) && (n in t <==> d in b) && (n in t ==> t[n] == b[d])
  {
    var d, n := In(l.signs, oldName), In(l.signs, op.newName);
    assert Under(l.signs, n) && AppliedAt(b, t, l, op, oldName, Inventory(b, l, oldName), n);
    SiblingsApart(l.signs, oldName, op.newName);
    UnderDepth(l.signs, l.signs);
    assert Rebase(n, n, d) == d;
    assert d !in Inventory(b, l, oldName);
  }

  /** No configuration that survives still names the old account. */
  lemma NoReferenceRemains(b: Tree, t: Tree, l: Layout, op: Operation, oldName: string, q: Path)
    requires ConfigsParse(b, l) && Start(b, l, op, oldName, Inventory(b, l, oldName))
    requires Applied(b, t, l, op, oldName, Inventory(b, l, oldName)) && ReadsAsConfig(b, l, op, oldName)
    requires q in t && IsConfigPath(l, q)
    ensures t[q].File? && t[q].content.Task? && !References(t[q].content.config, oldName)
  {
    var configs := Inventory(b, l, oldName);
    if op.Rename? && q == In(l.signs, op.newName) {
      OwnDirectoryMoved(b, t, l, op, oldName);
    } else {
      assert AppliedAt(b, t, l, op, oldName, configs, q);
      var source := SourceIsConfig(b, l, op, oldName, q);
      assert source in b && t[q] == MigratedNode(b, op, oldName, configs, source);
      if source in configs {
        if op.Rename? {
          RenameConfigLaw(configs[source].config, oldName, op.newName);
        } else {
          DropAccountLaw(configs[source].config, oldName);
        }
      }
    }
  }

  lemma ValidationPasses(b: Tree, t: Tree, l: Layout, op: Operation, oldName: string)
    requires ConfigsParse(b, l) && Start(b, l, op, oldName, Inventory(b, l, oldName))
    requires Applied(b, t, l, op, oldName, Inventory(b, l, oldName)) && ReadsAsConfig(b, l, op, oldName)
    ensures Validated(t, l, oldName)
  {
    var configs := Inventory(b, l, oldName);
    var oldDir := In(l.signs, oldName);
    assert Under(l.signs, oldDir) && AppliedAt(b, t, l, op, oldName, configs, oldDir);
    forall i | 0 <= i < |SESSION_SUFFIXES| ensures In(l.sessions, oldName + SESSION_SUFFIXES[i]) !in t {
      SidecarGone(b, t, l, op, oldName, configs, In(l.sessions, oldName + SESSION_SUFFIXES[i]));
    }
    forall q | q in t && IsConfigPath(l, q)
      ensures t[q].File? && t[q].content.Task? && !References(t[q].content.config, oldName)
    {
      NoReferenceRemains(b, t, l, op, oldName, q);
    }
  }

  /**
   * Once every step has succeeded, `_validate_applied` raises exactly if the renamed directory fails to read as a
   * configuration.
   */
  lemma ValidationExact(b: Tree, t: Tree, l: Layout, op: Operation, oldName: string)
    requires ConfigsParse(b, l) && Start(b, l, op, oldName, Inventory(b, l, oldName))
    requires Applied(b, t, l, op, oldName, Inventory(b, l, oldName))
    ensures Validated(t, l, oldName) <==> ReadsAsConfig(b, l, op, oldName)
  {
    if ReadsAsConfig(b, l, op, oldName) {
      ValidationPasses(b, t, l, op, oldName);
    } else {
      OwnDirectoryMoved(b, t, l, op, oldName);
    }
  }

  lemma SidecarGone(b: Tree, t: Tree, l: Layout, op: Operation, oldName: string, configs: map<Path, Item>, p: Path)
    requires Start(b, l, op, oldName, configs) && Applied(b, t, l, op, oldName, configs)
    requires p in Sidecars(l, oldName) && p.In? && p.parent == l.sessions
    ensures p !in t
  {
    var files := ExistingSidecars(b, l, oldName);
    assert Under(l.sessions, p) && AppliedAt(b, t, l, op, oldName, configs, p);
    AreasDisjoint(l, p);
    if op.Rename? {
      SidecarPlan(l, oldName, op.newName, Sidecars(l, oldName));
      assert MovedAt(b, t, files, SidecarMove(oldName, op.newName), Unchanged, p);
      forall s | s in files && s != p ensures !Under(s, p) && !Under(SidecarDest(s, oldName, op.newName), p) {
        assert Apart(s, p);
        assert Apart(p, SidecarMove(oldName, op.newName)(s));
      }
      assert p in files ==> Under(p, p);
    } else {
      assert p in files ==> UnderAny(files, p);
      if p !in files && UnderAny(files, p) {
        var s :| s in files && Under(s, p);
        var e := SidecarShape(l, oldName, s);
        SiblingOrCousin(l, s, p);
      }
    }
  }
}
