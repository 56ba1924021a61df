/** Runs of an account change on small trees: where a step raises by itself, and what a rollback loses. */
module AccountWitnesses {
  import opened Text
  import opened TaskConfig
  import opened FileTree
  import opened PathOrder
  import opened StagedTree
  import opened AccountFiles
  import opened AccountLifecycle

  const SIGNS := In(Root, "signs")
  const HERE := Layout(SIGNS, In(Root, "sessions"), In(Root, "avatars"), In(Root, "history"))
  const FLOOR: Tree := map[Root := Dir, SIGNS := Dir]
  const OWN := In(SIGNS, "a")
  const PROFILES: map<string, Profile> := map["a" := Profile("", 0)]

  function Quiet(): Surroundings
  {
    Surroundings(false, "", name => true)
  }

  function NoFaults(): Faults
  {
    (n, t, foot, created) => None
  }

  lemma HereValid()
    ensures HERE.Valid()
  {
    SiblingsApart(Root, "signs", "sessions");
    SiblingsApart(Root, "signs", "avatars");
    SiblingsApart(Root, "signs", "history");
    SiblingsApart(Root, "sessions", "avatars");
    SiblingsApart(Root, "sessions", "history");
    SiblingsApart(Root, "avatars", "history");
  }

  /** A node in a directory of a well-formed tree. */
  lemma Grown(t: Tree, p: Path, n: Node)
    requires WellFormed(t) && p.In? && p.parent in t && t[p.parent].Dir? && p !in t
    ensures WellFormed(t[p := n])
  {
  }

  lemma FloorWellFormed()
    ensures WellFormed(FLOOR)
  {
    var root: Tree := map[Root := Dir];
    Grown(root, SIGNS, Dir);
    assert FLOOR == root[SIGNS := Dir];
  }

  /** The account has no files but those below the task directory. */
  ghost predicate OnlySigns(t: Tree)
  {
    forall q :: q in t ==> q == Root || Under(SIGNS, q)
  }

  lemma NoOtherFiles(t: Tree)
    requires OnlySigns(t)
    ensures ExistingSidecars(t, HERE, "a") == {} && HistoryFiles(t, HERE, "a") == {}
    ensures forall i :: 0 <= i < |SESSION_SUFFIXES| ==> In(HERE.sessions, "config.json" + SESSION_SUFFIXES[i]) !in t
  {
    forall q: Path | q.In? && (q.parent == HERE.sessions || q.parent == HERE.avatars || q.parent == HERE.history)
      ensures q !in t
    {
      SiblingsApart(Root, "signs", q.parent.name);
      if Under(SIGNS, q) { assert Under(SIGNS, q.parent); }
    }
    forall q | q in Sidecars(HERE, "a") ensures q !in t { var e := SidecarShape(HERE, "a", q); }
  }

  // ---------- a configuration inside a task directory that is removed ----------

  const DAILY := In(SIGNS, "daily")
  const OUTER := In(DAILY, "config.json")
  const TASK := File(Task(Config(Some("a"), None, true, "")))

  function Inner(sub: string): Path
  {
    In(In(DAILY, sub), "config.json")
  }

  /** The task directory `daily` of account `a`, with another configuration of the account in its directory `sub`. */
  function Nested(sub: string): Tree
  {
    FLOOR[DAILY := Dir][OUTER := TASK][In(DAILY, sub) := Dir][Inner(sub) := TASK]
  }

  lemma NestedTree(sub: string)
    requires sub != "config.json"
    ensures WellFormed(Nested(sub)) && OnlySigns(Nested(sub))
  {
    FloorWellFormed();
    Grown(FLOOR, DAILY, Dir);
    Grown(FLOOR[DAILY := Dir], OUTER, TASK);
    Grown(FLOOR[DAILY := Dir][OUTER := TASK], In(DAILY, sub), Dir);
    Grown(FLOOR[DAILY := Dir][OUTER := TASK][In(DAILY, sub) := Dir], Inner(sub), TASK);
    assert Under(SIGNS, SIGNS) && Under(SIGNS, DAILY) && Under(SIGNS, In(DAILY, sub));
    assert Under(SIGNS, OUTER) && Under(SIGNS, Inner(sub));
  }

  lemma NestedInventory(sub: string)
    requires sub != "config.json"
    ensures ConfigsParse(Nested(sub), HERE)
    ensures Inventory(Nested(sub), HERE, "a")
      == map[OUTER := Item(TASK.content.config, true), Inner(sub) := Item(TASK.content.config, false)]
  {
    NestedTree(sub);
    forall q | q in Nested(sub) && IsConfigPath(HERE, q) ensures q == OUTER || q == Inner(sub) {
      assert SIGNS.name[0] == 's' && DAILY.name[0] == 'd';
    }
    assert Under(SIGNS, OUTER) && Under(SIGNS, Inner(sub)) && OUTER != Inner(sub);
  }

  lemma NestedPlannable(sub: string)
    requires sub != "config.json"
    ensures ConfigsParse(Nested(sub), HERE) && Plannable(Nested(sub), PROFILES, HERE, Delete(false), "a", Quiet())
  {
    NestedTree(sub);
    NestedInventory(sub);
    NoOtherFiles(Nested(sub));
  }

  /** The deletion runs to its end exactly if the inner directory is listed before `config.json`. */
  lemma NestedSmoothExactly(sub: string)
    requires sub != "config.json"
    ensures FullySmooth(Nested(sub), HERE, Delete(false), "a") <==> TextBefore(sub, "config.json")
  {
    NestedInventory(sub);
    var configs := Inventory(Nested(sub), HERE, "a");
    assert Under(In(DAILY, sub), Inner(sub)) && Under(DAILY, Inner(sub));
    SiblingOrder(DAILY, sub, "config.json", Inner(sub));
    assert OUTER in configs && Inner(sub) in configs && configs[OUTER].owned;
  }

  method DeleteNested(sub: string) returns (outcome: Outcome)
    requires sub != "config.json"
    ensures outcome.Done? <==> TextBefore(sub, "config.json")
    ensures !outcome.Rejected?
  {
    var t := Nested(sub);
    HereValid();
    NestedTree(sub);
    NestedPlannable(sub);
    NestedSmoothExactly(sub);
    var service := new AccountService(HERE, t, PROFILES);
    outcome := service.Apply(Preview(t, PROFILES, HERE, Delete(false), "a", ""), Quiet(), t, NoFaults(), 0, 0, None);
  }

  // ---------- the name `config.json` ----------

  /** The account with or without a task directory, which may hold a note. */
  function Owner(hasDirectory: bool, hasNote: bool): Tree
  {
    if !hasDirectory then FLOOR
    else if !hasNote then FLOOR[OWN := Dir]
    else FLOOR[OWN := Dir][In(OWN, "note") := File(Blob([]))]
  }

  lemma OwnerTree(hasDirectory: bool, hasNote: bool)
    ensures WellFormed(Owner(hasDirectory, hasNote)) && OnlySigns(Owner(hasDirectory, hasNote))
  {
    FloorWellFormed();
    Grown(FLOOR, OWN, Dir);
    Grown(FLOOR[OWN := Dir], In(OWN, "note"), File(Blob([])));
    assert Under(SIGNS, SIGNS) && Under(SIGNS, OWN) && Under(SIGNS, In(OWN, "note"));
  }

  lemma OwnerInventory(hasDirectory: bool, hasNote: bool)
    ensures ConfigsParse(Owner(hasDirectory, hasNote), HERE)
    ensures Inventory(Owner(hasDirectory, hasNote), HERE, "a") == map[]
  {
    forall q | q in Owner(hasDirectory, hasNote) ensures !IsConfigPath(HERE, q) {
      assert OWN.name[0] != 'c' && "note"[0] != 'c' && SIGNS.name[0] != 'c' && "config.json"[0] == 'c';
    }
  }

  lemma OwnerPlannable(hasDirectory: bool, hasNote: bool, op: Operation)
    requires op.Rename? ==> op.newName == "config.json"
    ensures ConfigsParse(Owner(hasDirectory, hasNote), HERE)
    ensures Plannable(Owner(hasDirectory, hasNote), PROFILES, HERE, op, "a", Quiet())
  {
    OwnerTree(hasDirectory, hasNote);
    OwnerInventory(hasDirectory, hasNote);
    NoOtherFiles(Owner(hasDirectory, hasNote));
    assert OWN.name[0] != 'c' && "config.json"[0] == 'c';
    assert ValidName("config.json") && ValidName("a");
  }

  /** Renaming to `config.json` runs to its end exactly if the account has no task directory. */
  method RenameToConfigJson(hasDirectory: bool) returns (outcome: Outcome)
    ensures outcome.Done? <==> !hasDirectory
    ensures !outcome.Rejected?
  {
    var t, op := Owner(hasDirectory, false), Rename("config.json");
    HereValid();
    OwnerTree(hasDirectory, false);
    OwnerPlannable(hasDirectory, false, op);
    NoOtherFiles(t);
    var service := new AccountService(HERE, t, PROFILES);
    outcome := service.Apply(Preview(t, PROFILES, HERE, op, "a", ""), Quiet(), t, NoFaults(), 0, 0, None);
  }

  // ---------- the empty directory ----------

  /** A deletion whose store update fails is rolled back; the account's directory is lost exactly if it was empty. */
  method DeleteAndFail(hasNote: bool) returns (outcome: Outcome, service: AccountService)
    ensures outcome.RolledBack? && service.accounts == PROFILES
    ensures service.fs == Owner(true, hasNote) <==> hasNote
    ensures OWN in Owner(true, hasNote) && (OWN in service.fs <==> hasNote)
  {
    var t, op := Owner(true, hasNote), Delete(false);
    HereValid();
    OwnerTree(true, hasNote);
    OwnerInventory(true, hasNote);
    OwnerPlannable(true, hasNote, op);
    assert Under(OWN, In(OWN, "note"));
    assert IsEmptyDir(t, OWN) <==> !hasNote by {
      assert !Under(OWN, SIGNS) && !Under(OWN, Root);
    }
    service := new AccountService(HERE, t, PROFILES);
    outcome := service.Apply(Preview(t, PROFILES, HERE, op, "a", ""), Quiet(), t, NoFaults(), 1, 0, None);
  }
}
