/** What a finished change means for tasks, sessions and history, told without the functions that compute it. */
module AccountOutcomes {
  import opened Text
  import opened TaskConfig
  import opened FileTree
  import opened AccountFiles
  import opened FinishedChange

  // ---------- a rename ----------

  /** Where a path below the task directory is found after a rename: the account's own directory has moved. */
  function TaskPlace(l: Layout, oldName: string, newName: string, q: Path): Path
  {
    if Under(In(l.signs, oldName), q) then Rebase(q, In(l.signs, oldName), In(l.signs, newName)) else q
  }

  /** A configuration that neither names the account nor is that of a task in the account's own directory. */
  predicate Foreign(l: Layout, name: string, q: Path, c: Config)
  {
    !References(c, name) && !(q.In? && q.parent.In? && q.parent.parent == In(l.signs, name))
  }

  predicate IsTask(t: Tree, p: Path)
  {
    IsFile(t, p) && t[p].content.Task?
  }

  ghost predicate TaskFollows(b: Tree, t: Tree, l: Layout, oldName: string, newName: string, q: Path)
  {
    var p := TaskPlace(l, oldName, newName, q);
    q in b ==>
      if IsConfigPath(l, q) && IsTask(b, q) && !Foreign(l, oldName, q, b[q].content.config) then
        IsTask(t, p) && Follows(b[q].content.config, t[p].content.config, oldName, newName)
      else p in t && t[p] == b[q]
  }

  /** A file `name + suffix` of the account now belongs to the new name. */
  ghost predicate FileFollows(b: Tree, t: Tree, dir: Path, suffix: string, oldName: string, newName: string)
  {
    && In(dir, oldName + suffix) !in t
    && (In(dir, oldName + suffix) in b ==>
      In(dir, newName + suffix) in t && t[In(dir, newName + suffix)] == b[In(dir, oldName + suffix)])
  }

  /** The history file of the task that `rest` stands for. */
  function HistoryFile(l: Layout, name: string, rest: string): Path
  {
    In(l.history, HistoryPrefix(name) + rest)
  }

  predicate IsHistory(b: Tree, l: Layout, name: string, rest: string)
  {
    IsFile(b, HistoryFile(l, name, rest)) && IsHistoryFile(l, name, HistoryFile(l, name, rest))
  }

  ghost predicate RecordsFollow(b: Tree, t: Tree, l: Layout, oldName: string, newName: string, rest: string)
  {
    var p, d := HistoryFile(l, oldName, rest), HistoryFile(l, newName, rest);
    IsHistory(b, l, oldName, rest) ==>
      p !in t && IsFile(t, d) && HistoryFollows(b[p].content, t[d].content, oldName, newName)
  }

  /**
   * After a rename everything of the old account is the new one's: each of its tasks, its session and avatar files, and
   * its history; tasks of others are where they were, as they were.
   */
  ghost predicate AccountRenamed(b: Tree, t: Tree, l: Layout, oldName: string, newName: string)
  {
    && (forall q :: Under(l.signs, q) ==> TaskFollows(b, t, l, oldName, newName, q))
    && (forall e :: e in SESSION_SUFFIXES ==> FileFollows(b, t, l.sessions, e, oldName, newName))
    && (forall e :: e in AVATAR_SUFFIXES ==> FileFollows(b, t, l.avatars, e, oldName, newName))
    && (forall rest :: RecordsFollow(b, t, l, oldName, newName, rest))
  }

  /** The old directory's path `q` is found again. */
  lemma PlaceBack(l: Layout, oldName: string, newName: string, q: Path)
    requires oldName != newName && Under(l.signs, q) && !Under(In(l.signs, newName), q)
    ensures var p := TaskPlace(l, oldName, newName, q);
      && Under(l.signs, p) && !Under(In(l.signs, oldName), p)
      && q == if Under(In(l.signs, newName), p) then Rebase(p, In(l.signs, newName), In(l.signs, oldName)) else p
  {
    var oldDir, newDir := In(l.signs, oldName), In(l.signs, newName);
    SiblingsApart(l.signs, oldName, newName);
    if Under(oldDir, q) {
      var p := Rebase(q, oldDir, newDir);
      RebaseBack(q, oldDir, newDir);
      assert Under(l.signs, newDir);
      UnderTrans(l.signs, newDir, p);
      ApartBelow(newDir, oldDir, p);
    }
  }

  lemma TaskFollowed(b: Tree, t: Tree, l: Layout, oldName: string, newName: string, q: Path)
    requires ConfigsParse(b, l) && Start(b, l, Rename(newName), oldName, Inventory(b, l, oldName))
    requires Applied(b, t, l, Rename(newName), oldName, Inventory(b, l, oldName)) && Under(l.signs, q)
    ensures TaskFollows(b, t, l, oldName, newName, q)
  {
    if q in b {
      var configs, p := Inventory(b, l, oldName), TaskPlace(l, oldName, newName, q);
      assert In(l.signs, newName) !in b && !Under(In(l.signs, newName), q);
      PlaceBack(l, oldName, newName, q);
      assert AppliedAt(b, t, l, Rename(newName), oldName, configs, p);
      assert p in t && t[p] == MigratedNode(b, Rename(newName), oldName, configs, q);
      if q in configs { RenameConfigLaw(b[q].content.config, oldName, newName); }
    }
  }

  lemma SidecarFollowed(b: Tree, t: Tree, l: Layout, oldName: string, newName: string, dir: Path, e: string)
    requires ConfigsParse(b, l) && Start(b, l, Rename(newName), oldName, Inventory(b, l, oldName))
    requires Applied(b, t, l, Rename(newName), oldName, Inventory(b, l, oldName))
    requires (dir == l.sessions && e in SESSION_SUFFIXES) || (dir == l.avatars && e in AVATAR_SUFFIXES)
    ensures FileFollows(b, t, dir, e, oldName, newName)
  {
    var s, d, op, configs := In(dir, oldName + e), In(dir, newName + e), Rename(newName), Inventory(b, l, oldName);
    assert s in Sidecars(l, oldName) && SidecarMove(oldName, newName)(s) == d;
    assert Under(dir, s) && Under(dir, d);
    AreasDisjoint(l, s);
    AreasDisjoint(l, d);
    assert AppliedAt(b, t, l, op, oldName, configs, s) && AppliedAt(b, t, l, op, oldName, configs, d);
    if s in b {
      assert Under(s, s) && s in ExistingSidecars(b, l, oldName);
    } else {
      SidecarUntouched(b, t, l, oldName, newName, s);
    }
  }

  /** Moving the existing sidecars does not create one of the old name. */
  lemma SidecarUntouched(b: Tree, t: Tree, l: Layout, oldName: string, newName: string, s: Path)
    requires l.Valid() && oldName != newName && s in Sidecars(l, oldName) && s !in b
    requires MovedAt(b, t, ExistingSidecars(b, l, oldName), SidecarMove(oldName, newName), Unchanged, s)
    ensures s !in t
  {
    SidecarPlan(l, oldName, newName, Sidecars(l, oldName));
    forall r | r in ExistingSidecars(b, l, oldName)
      ensures !Under(r, s) && !Under(SidecarMove(oldName, newName)(r), s)
    {
      assert Apart(s, SidecarMove(oldName, newName)(r)) && Apart(r, s);
    }
  }

  lemma RecordsFollowed(b: Tree, t: Tree, l: Layout, oldName: string, newName: string, rest: string)
    requires ConfigsParse(b, l) && Start(b, l, Rename(newName), oldName, Inventory(b, l, oldName))
    requires Applied(b, t, l, Rename(newName), oldName, Inventory(b, l, oldName))
    ensures RecordsFollow(b, t, l, oldName, newName, rest)
  {
    if IsHistory(b, l, oldName, rest) {
      var p, d, op, configs :=
        HistoryFile(l, oldName, rest), HistoryFile(l, newName, rest), Rename(newName), Inventory(b, l, oldName);
      AfterSeparatorSkipsKey(HistoryKey(oldName), rest);
      assert HistoryMove(newName)(p) == d;
      assert Under(l.history, p) && Under(l.history, d) && Under(p, p);
      AreasDisjoint(l, p);
      AreasDisjoint(l, d);
      IndexIsNotHistory(l, oldName, rest);
      IndexIsNotHistory(l, newName, rest);
      assert AppliedAt(b, t, l, op, oldName, configs, p) && AppliedAt(b, t, l, op, oldName, configs, d);
      RenameHistoryLaw(b[p].content, oldName, newName);
    }
  }

  lemma RenameOutcome(b: Tree, t: Tree, l: Layout, oldName: string, newName: string)
    requires ConfigsParse(b, l) && Start(b, l, Rename(newName), oldName, Inventory(b, l, oldName))
    requires Applied(b, t, l, Rename(newName), oldName, Inventory(b, l, oldName))
    ensures AccountRenamed(b, t, l, oldName, newName)
  {
    forall q | Under(l.signs, q) ensures TaskFollows(b, t, l, oldName, newName, q) {
      TaskFollowed(b, t, l, oldName, newName, q);
    }
    forall e | e in SESSION_SUFFIXES ensures FileFollows(b, t, l.sessions, e, oldName, newName) {
      SidecarFollowed(b, t, l, oldName, newName, l.sessions, e);
    }
    forall e | e in AVATAR_SUFFIXES ensures FileFollows(b, t, l.avatars, e, oldName, newName) {
      SidecarFollowed(b, t, l, oldName, newName, l.avatars, e);
    }
    forall rest ensures RecordsFollow(b, t, l, oldName, newName, rest) {
      RecordsFollowed(b, t, l, oldName, newName, rest);
    }
  }

  // ---------- a deletion ----------

  /** The configuration of a task that names the account and lies directly in the task directory. */
  predicate IsLegacyTask(b: Tree, l: Layout, name: string, p: Path)
  {
    && p.In? && p.name == "config.json" && p.parent.In? && p.parent.parent == l.signs
    && IsTask(b, p) && b[p].content.config.account == Some(name)
  }

  /** The account's own directory, or that of a legacy task of the account, lies above `q`. */
  ghost predicate InOwnTask(b: Tree, l: Layout, name: string, q: Path)
  {
    Under(In(l.signs, name), q) || exists p :: IsLegacyTask(b, l, name, p) && Under(p.parent, q)
  }

  ghost predicate TaskLeft(b: Tree, t: Tree, l: Layout, name: string, q: Path)
  {
    if InOwnTask(b, l, name, q) then q !in t
    else if IsConfigPath(l, q) && IsTask(b, q) && References(b[q].content.config, name) then
      IsTask(t, q) && Leaves(b[q].content.config, t[q].content.config, name)
    else Same(b, t, q)
  }

  /**
   * After a deletion the account's own tasks, its session and avatar files, and if wished its history are gone; shared
   * tasks pass to the next account, and everything else is as it was.
   */
  ghost predicate AccountDeleted(b: Tree, t: Tree, l: Layout, name: string, purge: bool)
  {
    && (forall q :: Under(l.signs, q) ==> TaskLeft(b, t, l, name, q))
    && (forall e :: e in SESSION_SUFFIXES ==> In(l.sessions, name + e) !in t)
    && (forall e :: e in AVATAR_SUFFIXES ==> In(l.avatars, name + e) !in t)
    && (forall rest :: IsHistory(b, l, name, rest) ==>
      if purge then HistoryFile(l, name, rest) !in t else Same(b, t, HistoryFile(l, name, rest)))
  }

  lemma TaskWasLeft(b: Tree, t: Tree, l: Layout, name: string, purge: bool, q: Path)
    requires ConfigsParse(b, l) && Start(b, l, Delete(purge), name, Inventory(b, l, name))
    requires Applied(b, t, l, Delete(purge), name, Inventory(b, l, name)) && Under(l.signs, q)
    ensures TaskLeft(b, t, l, name, q)
  {
    var configs := Inventory(b, l, name);
    assert AppliedAt(b, t, l, Delete(purge), name, configs, q);
    OwnTasks(b, l, name, q);
    if q in configs && !InOwnTask(b, l, name, q) {
      assert Under(q.parent, q);
      DropAccountLaw(configs[q].config, name);
    }
  }

  lemma OwnTasks(b: Tree, l: Layout, name: string, q: Path)
    requires ConfigsParse(b, l)
    ensures InOwnTask(b, l, name, q) <==>
      Under(In(l.signs, name), q) || InTaskOf(Inventory(b, l, name), Inventory(b, l, name).Keys, q)
  {
    var configs := Inventory(b, l, name);
    if p :| p in configs.Keys && p in configs && configs[p].owned && p.In? && Under(p.parent, q) {
      if p.parent.parent == In(l.signs, name) {
        UnderTrans(p.parent.parent, p.parent, q);
      } else {
        assert IsLegacyTask(b, l, name, p);
      }
    }
    if p :| IsLegacyTask(b, l, name, p) && Under(p.parent, q) {
      assert Under(l.signs, p.parent) && Under(l.signs, p);
      UnderDepth(l.signs, p.parent);
      assert p in configs && configs[p].owned;
    }
  }

  lemma SidecarWasLeft(b: Tree, t: Tree, l: Layout, name: string, purge: bool, dir: Path, e: string)
    requires l.Valid() && AppliedAt(b, t, l, Delete(purge), name, map[], In(dir, name + e))
    requires (dir == l.sessions && e in SESSION_SUFFIXES) || (dir == l.avatars && e in AVATAR_SUFFIXES)
    ensures In(dir, name + e) !in t
  {
    var s := In(dir, name + e);
    assert s in Sidecars(l, name) && Under(dir, s) && Under(s, s);
    AreasDisjoint(l, s);
    if s in b { assert s in ExistingSidecars(b, l, name) && UnderAny(ExistingSidecars(b, l, name), s); }
  }

  lemma RecordsWereLeft(b: Tree, t: Tree, l: Layout, name: string, purge: bool, rest: string)
    requires l.Valid() && name != "" && IsHistory(b, l, name, rest)
    requires AppliedAt(b, t, l, Delete(purge), name, map[], HistoryFile(l, name, rest))
    ensures if purge then HistoryFile(l, name, rest) !in t else Same(b, t, HistoryFile(l, name, rest))
  {
    var p := HistoryFile(l, name, rest);
    assert Under(l.history, p) && Under(p, p);
    AreasDisjoint(l, p);
    IndexIsNotHistory(l, name, rest);
    assert UnderAny(HistoryFiles(b, l, name), p);
  }

  lemma DeleteOutcome(b: Tree, t: Tree, l: Layout, name: string, purge: bool)
    requires ConfigsParse(b, l) && Start(b, l, Delete(purge), name, Inventory(b, l, name))
    requires Applied(b, t, l, Delete(purge), name, Inventory(b, l, name))
    ensures AccountDeleted(b, t, l, name, purge)
  {
    forall q | Under(l.signs, q) ensures TaskLeft(b, t, l, name, q) { TaskWasLeft(b, t, l, name, purge, q); }
    forall dir, e | (dir == l.sessions && e in SESSION_SUFFIXES) || (dir == l.avatars && e in AVATAR_SUFFIXES)
      ensures In(dir, name + e) !in t
    {
      assert Under(dir, In(dir, name + e));
      AreasDisjoint(l, In(dir, name + e));
      assert AppliedAt(b, t, l, Delete(purge), name, Inventory(b, l, name), In(dir, name + e));
      SidecarWasLeft(b, t, l, name, purge, dir, e);
    }
    forall rest | IsHistory(b, l, name, rest)
      ensures if purge then HistoryFile(l, name, rest) !in t else Same(b, t, HistoryFile(l, name, rest))
    {
      var p := HistoryFile(l, name, rest);
      assert Under(l.history, p);
      AreasDisjoint(l, p);
      assert AppliedAt(b, t, l, Delete(purge), name, Inventory(b, l, name), p);
      RecordsWereLeft(b, t, l, name, purge, rest);
    }
  }
}
