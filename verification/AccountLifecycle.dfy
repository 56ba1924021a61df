/** The whole transaction: plan check, forward steps, validation, and the exception handler. */
module AccountLifecycle {
  import opened Text
  import opened TaskConfig
  import opened FileTree
  import opened StagedChange
  import opened StagedTree
  import opened AccountFiles
  import opened AccountPhases
  import opened FinishedChange
  import opened AccountOutcomes

  datatype Profile = Profile(data: string, updatedAt: nat)

  datatype Outcome = Rejected | Done | RolledBack

  /**
   * What closing the Telegram client may do first, even if it raises on the way: drop or rewrite session files of the
   * account.
   */
  ghost predicate ClosedFrom(t: Tree, closed: Tree, l: Layout, name: string)
  {
    && WellFormed(closed)
    && forall q :: if q in Sidecars(l, name) then q in closed ==> q in t && closed[q].Dir? == t[q].Dir?
      else Same(t, closed, q)
  }

  // ---------- the plan ----------

  /** The impact preview a caller has seen; its revision is a hash of the listed files and of the profile. */
  datatype Plan = Plan(op: Operation, oldName: string, files: map<Path, Node>, profile: Option<Profile>,
                       runtime: string)

  /**
   * What the plan depends on besides the files and the store: running tasks of the account, its jobs and monitors,
   * and the length limit and character classes of names.
   */
  datatype Surroundings = Surroundings(busy: bool, runtime: string, printable: string -> bool)

  function ProfileOf(accounts: map<string, Profile>, name: string): Option<Profile>
  {
    if name in accounts then Some(accounts[name]) else None
  }

  /** The files of the account. */
  function Affected(t: Tree, l: Layout, oldName: string): set<Path>
    requires ConfigsParse(t, l)
  {
    ExistingSidecars(t, l, oldName) + HistoryFiles(t, l, oldName) + Inventory(t, l, oldName).Keys
  }

  function Preview(t: Tree, accounts: map<string, Profile>, l: Layout, op: Operation, oldName: string,
                   runtime: string): Plan
    requires ConfigsParse(t, l)
  {
    Plan(op, oldName, map p | p in Affected(t, l, oldName) :: t[p], ProfileOf(accounts, oldName), runtime)
  }

  /** `build_account_change_plan` does not raise. */
  predicate Plannable(t: Tree, accounts: map<string, Profile>, l: Layout, op: Operation, oldName: string,
                      here: Surroundings)
  {
    && !here.busy && ValidName(oldName) && here.printable(oldName)
    && ConfigsParse(t, l)
    && (ExistingSidecars(t, l, oldName) != {} || oldName in accounts)
    && (forall p :: p in ExistingSidecars(t, l, oldName) ==> IsFile(t, p))
    && (forall p :: p in HistoryFiles(t, l, oldName) ==> IsFile(t, p))
    && match op
       case Rename(newName) =>
         && ValidName(newName) && here.printable(newName)
         && newName != oldName && newName !in accounts
         && (forall i :: 0 <= i < |SESSION_SUFFIXES| ==> In(l.sessions, newName + SESSION_SUFFIXES[i]) !in t)
         && In(l.signs, newName) !in t
         && (forall p :: p in HistoryFiles(t, l, oldName) ==> HistoryDest(p, newName) !in t)
         && (forall p :: p in ExistingSidecars(t, l, oldName) ==> SidecarDest(p, oldName, newName) !in t)
       case Delete(_) => true
  }

  /** The plan built again at the start is the one the caller has seen. */
  predicate PlanAccepted(t: Tree, accounts: map<string, Profile>, l: Layout, plan: Plan, here: Surroundings)
  {
    && Plannable(t, accounts, l, plan.op, plan.oldName, here)
    && plan == Preview(t, accounts, l, plan.op, plan.oldName, here.runtime)
  }

  /**
   * An accepted plan is not stale: the account has the files the preview showed, with the same content, and the
   * same profile.
   */
  lemma AcceptedIsFresh(t0: Tree, accounts0: map<string, Profile>, t: Tree, accounts: map<string, Profile>, l: Layout,
                        op: Operation, oldName: string, runtime: string, here: Surroundings)
    requires ConfigsParse(t0, l) && PlanAccepted(t, accounts, l, Preview(t0, accounts0, l, op, oldName, runtime), here)
    ensures Affected(t, l, oldName) == Affected(t0, l, oldName) && runtime == here.runtime
    ensures forall p :: p in Affected(t, l, oldName) ==> Same(t0, t, p)
    ensures ProfileOf(accounts, oldName) == ProfileOf(accounts0, oldName)
  {
    AffectedExist(t0, l, oldName);
    AffectedExist(t, l, oldName);
    SamePart(t0, t, Affected(t0, l, oldName), Affected(t, l, oldName));
  }

  lemma AffectedExist(t: Tree, l: Layout, oldName: string)
    requires ConfigsParse(t, l)
    ensures Affected(t, l, oldName) <= t.Keys
  {
  }

  lemma SamePart(t: Tree, u: Tree, ps: set<Path>, qs: set<Path>)
    requires ps <= t.Keys && qs <= u.Keys && (map p | p in ps :: t[p]) == (map p | p in qs :: u[p])
    ensures ps == qs && forall p :: p in ps ==> Same(t, u, p)
  {
    var x, y := map p | p in ps :: t[p], map p | p in qs :: u[p];
    assert x.Keys == ps && y.Keys == qs;
    forall p | p in ps ensures Same(t, u, p) { assert x[p] == y[p]; }
  }

  /**
   * The tree after a rollback: the one at the start, except that an empty task directory of a deleted account may
   * be gone.
   */
  ghost predicate RolledBackTo(base: Tree, t: Tree, l: Layout, op: Operation, oldName: string)
  {
    t == base || (op.Delete? && IsEmptyDir(base, In(l.signs, oldName)) && t == Remove(base, In(l.signs, oldName)))
  }

  // ---------- which accepted changes run to their end ----------

  /**
   * No step of an accepted change raises by itself.  A rename needs history files that hold JSON, and its own
   * directory must not become an unreadable `config.json`.  A deletion needs every configuration inside the directory
   * of another one to be listed before that one, and no plain file in place of the account's directory.
   */
  ghost predicate FullySmooth(t: Tree, l: Layout, op: Operation, oldName: string)
  {
    && ConfigsParse(t, l) && ReadsAsConfig(t, l, op, oldName)
    && ForwardSmooth(t, l, op, oldName, Inventory(t, l, oldName))
  }

  ghost predicate ForwardSmooth(t: Tree, l: Layout, op: Operation, oldName: string, configs: map<Path, Item>)
  {
    match op
    case Rename(newName) => forall p :: p in HistoryFiles(t, l, oldName) ==> !(t[p].File? && t[p].content.Blob?)
    case Delete(_) => NestedFirst(configs, configs.Keys) && !IsFile(t, In(l.signs, oldName))
  }

  /** What the plan has checked already, seen on the tree after the client is closed. */
  ghost predicate Planned(t: Tree, l: Layout, op: Operation, oldName: string)
  {
    && SidecarsReady(t, l, op, oldName)
    && forall p :: p in HistoryFiles(t, l, oldName) ==>
      IsFile(t, p) && (op.Rename? ==> HistoryDest(p, op.newName) !in t)
  }

  /** Together with the plan, smoothness is what the single steps need. */
  lemma SmoothIsReady(b: Tree, l: Layout, op: Operation, oldName: string, configs: map<Path, Item>)
    requires Planned(b, l, op, oldName) && Start(b, l, op, oldName, configs)
    ensures ForwardSmooth(b, l, op, oldName, configs)
      <==> TasksReady(b, l, op, oldName, configs) && HistoryReady(b, op, HistoryFiles(b, l, oldName))
  {
  }

  // ---------- the forward steps ----------

  /** Session and avatar files. */
  method ForwardSidecars(w: StagedTree, l: Layout, op: Operation, oldName: string) returns (ok: bool)
    requires Ready(w) && l.Valid() && w.created == [] && w.edited == {} && w.pruned == {}
    requires op.Rename? ==> op.newName != oldName
    modifies w
    ensures Recorded(w.State()) && Kept(w) && w.edited == {} && w.pruned == {}
    ensures op.Delete? ==> w.created == []
    ensures ok ==> Orderly(w.State()) && Outside(w.created, l.signs) && Outside(w.created, l.history)
    ensures ok ==> SidecarsDone(old(w.fs), w.fs, l, op, oldName)
    ensures op.Delete? ==> w.snapshots.Keys <= old(w.snapshots.Keys) + Sidecars(l, oldName)
    ensures Calm(w.tear) && SidecarsReady(old(w.fs), l, op, oldName) ==> ok
  {
    var files := ExistingSidecars(w.fs, l, oldName);
    match op {
      case Rename(newName) => ok := MoveSidecars(w, files, l, oldName, newName);
      case Delete(_) =>
        DistinctSidecarsApart(l, oldName, files);
        ok := EraseFiles(w, files);
    }
  }

  predicate SidecarsReady(t: Tree, l: Layout, op: Operation, oldName: string)
  {
    forall p :: p in ExistingSidecars(t, l, oldName) ==>
      if op.Rename? then SidecarDest(p, oldName, op.newName) !in t else IsFile(t, p)
  }

  lemma DistinctSidecarsApart(l: Layout, oldName: string, files: set<Path>)
    requires l.Valid() && files <= Sidecars(l, oldName)
    ensures forall s, r :: s in files && r in files && s != r ==> Apart(s, r)
  {
    forall s, r | s in files && r in files && s != r ensures Apart(s, r) {
      var e := SidecarShape(l, oldName, s);
      var f := SidecarShape(l, oldName, r);
      SiblingOrCousin(l, s, r);
    }
  }

  method ConfigureTasks(w: StagedTree, l: Layout, op: Operation, oldName: string, configs: map<Path, Item>)
    returns (ok: bool)
    requires Ready(w) && w.edited == {} && Outside(w.created, l.signs) && InventoryOf(w.fs, l, configs)
    modifies w`fs, w`snapshots, w`steps, w`edited
    ensures Recorded(w.State())
    ensures ok ==> Orderly(w.State()) && w.edited <= configs.Keys
    ensures ok ==> In(l.signs, oldName) in w.snapshots || In(l.signs, oldName) !in w.edited
    ensures ok ==> Configured(op, oldName, old(w.fs), w.fs, configs, configs.Keys)
    ensures ok ==> (CanRetire(old(w.fs), l, op, oldName) <==> CanRetire(w.fs, l, op, oldName))
    ensures ok && IsEmptyDir(old(w.fs), In(l.signs, oldName)) ==> IsEmptyDir(w.fs, In(l.signs, oldName))
    ensures w.snapshots.Keys <= old(w.snapshots.Keys) + Targets(configs)
    ensures ok ==> op.Rename? || NestedFirst(configs, configs.Keys)
    ensures Calm(w.tear) && (op.Rename? || NestedFirst(configs, configs.Keys)) ==> ok
  {
    ghost var u := w.fs;
    ok := RewriteConfigs(w, configs, l, op, oldName);
    if !ok { return; }
    RetireReady(u, w.fs, l, op, oldName, configs);
    EditsAreConfigs(w, u, l, configs, oldName);
  }

  /** Configurations, then the account's own directory. */
  method ForwardTasks(w: StagedTree, l: Layout, op: Operation, oldName: string, configs: map<Path, Item>)
    returns (ok: bool, ghost configured: Tree)
    requires Ready(w) && w.edited == {} && w.pruned == {} && Outside(w.created, l.signs)
    requires op.Delete? ==> w.created == []
    requires InventoryOf(w.fs, l, configs) && (op.Rename? ==> op.newName != oldName)
    modifies w
    ensures Recorded(w.State()) && Kept(w) && w.pruned <= {In(l.signs, oldName)} && (op.Rename? ==> w.pruned == {})
    ensures ok ==> Orderly(w.State()) && w.edited <= configs.Keys
    ensures ok ==> forall c :: c in w.created ==> c in old(w.created) || (op.Rename? && c == In(l.signs, op.newName))
    ensures ok ==> TasksDone(old(w.fs), configured, w.fs, l, op, oldName, configs)
    ensures ok && op.Delete? && IsEmptyDir(old(w.fs), In(l.signs, oldName)) ==>
      w.snapshots.Keys <= old(w.snapshots.Keys) + Targets(configs) && w.pruned == {In(l.signs, oldName)}
    ensures ok ==> TasksReady(old(w.fs), l, op, oldName, configs)
    ensures Calm(w.tear) && TasksReady(old(w.fs), l, op, oldName, configs) ==> ok
  {
    ok := ConfigureTasks(w, l, op, oldName, configs);
    configured := w.fs;
    if !ok { return; }
    ok := RetireDirectory(w, l, op, oldName);
  }

  /** The account's own directory is no edited configuration, unless it is snapshotted itself. */
  lemma EditsAreConfigs(w: StagedTree, u: Tree, l: Layout, configs: map<Path, Item>, oldName: string)
    requires EditsIn(w, configs, configs.Keys) && InventoryOf(u, l, configs)
    ensures w.edited <= configs.Keys
    ensures In(l.signs, oldName) in w.snapshots || In(l.signs, oldName) !in w.edited
  {
  }

  ghost predicate TasksReady(t: Tree, l: Layout, op: Operation, oldName: string, configs: map<Path, Item>)
  {
    CanRetire(t, l, op, oldName) && (op.Rename? || NestedFirst(configs, configs.Keys))
  }

  /**
   * The directory of an owned task lies below the task directory, so the account's own directory lies above it or
   * apart.
   */
  lemma OwnDirectoryOutside(u: Tree, l: Layout, oldName: string, configs: map<Path, Item>, p: Path)
    requires InventoryOf(u, l, configs) && p in configs && configs[p].owned && Under(p.parent, In(l.signs, oldName))
    ensures p.parent == In(l.signs, oldName)
  {
    var d := In(l.signs, oldName);
    if p.parent != d {
      assert Under(p.parent, l.signs);
      UnderDepth(p.parent, l.signs);
      UnderDepth(l.signs, p.parent);
    }
  }

  /**
   * Rewriting the configurations changes neither kind nor emptiness of the account's own directory, unless it
   * removes it.
   */
  lemma RetireReady(u: Tree, c: Tree, l: Layout, op: Operation, oldName: string, configs: map<Path, Item>)
    requires WellFormed(u) && Configured(op, oldName, u, c, configs, configs.Keys) && InventoryOf(u, l, configs)
    ensures CanRetire(u, l, op, oldName) <==> CanRetire(c, l, op, oldName)
    ensures IsEmptyDir(u, In(l.signs, oldName)) ==> IsEmptyDir(c, In(l.signs, oldName))
  {
    var d := In(l.signs, oldName);
    assert ConfiguredAt(op, oldName, u, c, configs, configs.Keys, d);
    if op.Rename? {
      assert ConfiguredAt(op, oldName, u, c, configs, configs.Keys, In(l.signs, op.newName));
    } else if p :| p in configs.Keys && p in configs && configs[p].owned && p.In? && Under(p.parent, d) {
      OwnDirectoryOutside(u, l, oldName, configs, p);
      assert IsFile(u, p) && Under(p.parent, p);
    }
    if IsEmptyDir(u, d) { StaysEmpty(u, c, l, op, oldName, configs); }
  }

  lemma StaysEmpty(u: Tree, c: Tree, l: Layout, op: Operation, oldName: string, configs: map<Path, Item>)
    requires Configured(op, oldName, u, c, configs, configs.Keys) && InventoryOf(u, l, configs)
    requires IsEmptyDir(u, In(l.signs, oldName))
    ensures IsEmptyDir(c, In(l.signs, oldName))
  {
    var d := In(l.signs, oldName);
    forall p | p in configs && configs[p].owned && p.In? ensures !Under(p.parent, d) {
      if Under(p.parent, d) {
        OwnDirectoryOutside(u, l, oldName, configs, p);
        assert IsFile(u, p) && Under(p.parent, p);
      }
    }
    assert ConfiguredAt(op, oldName, u, c, configs, configs.Keys, d);
    forall q | q in c && Under(d, q) ensures q == d {
      assert ConfiguredAt(op, oldName, u, c, configs, configs.Keys, q);
    }
  }

  method ForwardHistory(w: StagedTree, l: Layout, op: Operation, oldName: string, hist: set<Path>) returns (ok: bool)
    requires Ready(w) && Outside(w.created, l.history) && oldName != ""
    requires op.Rename? ==> op.newName != oldName && op.newName != ""
    requires forall s :: s in hist ==> IsHistoryFile(l, oldName, s)
    requires forall p :: p in w.edited ==> !Under(l.history, p)
    modifies w`fs, w`snapshots, w`created, w`steps
    ensures Recorded(w.State())
    ensures ok ==> Orderly(w.State()) && Outside(w.created, IndexPath(l))
    ensures ok ==> HistoryDone(old(w.fs), w.fs, l, op, oldName, hist)
    ensures op.Delete? ==> w.snapshots.Keys <= old(w.snapshots.Keys) + hist
    ensures ok && op.Rename? ==> HistoryReady(old(w.fs), op, hist)
    ensures Calm(w.tear) && HistoryReady(old(w.fs), op, hist) ==> ok
  {
    assert forall s :: s in hist ==> Under(l.history, s);
    match op {
      case Rename(newName) =>
        ok := MigrateHistory(w, hist, l, oldName, newName);
        if ok { IndexApart(w.created, l, hist, newName); }
      case Delete(purge) =>
        ok := true;
        assert Under(l.history, IndexPath(l));
        OutsideBelow(w.created, l.history, IndexPath(l));
        if purge {
          forall s | s in hist ensures Outside(w.created, s) { OutsideBelow(w.created, l.history, s); }
          forall s, r | s in hist && r in hist && s != r ensures Apart(s, r) {
            SiblingsApart(l.history, s.name, r.name);
          }
          ok := EraseFiles(w, hist);
        }
    }
  }

  predicate HistoryReady(t: Tree, op: Operation, hist: set<Path>)
  {
    match op
    case Rename(newName) => CanMigrate(t, hist, newName)
    case Delete(purge) => purge ==> forall p :: p in hist ==> IsFile(t, p)
  }

  lemma IndexApart(created: seq<Path>, l: Layout, hist: set<Path>, newName: string)
    requires newName != "" && HistoryCreated(created, l, hist, newName)
    requires forall s :: s in hist ==> s.In? && s.parent == l.history
    ensures Outside(created, IndexPath(l))
  {
    assert Under(l.history, IndexPath(l));
    forall c | c in created ensures Apart(c, IndexPath(l)) {
      if Apart(c, l.history) {
        ApartChildren(c, l.history, c, IndexPath(l));
      } else {
        var s :| s in hist && c == HistoryDest(s, newName);
        IndexIsNotHistory(l, newName, AfterSeparator(s.name));
        SiblingsApart(l.history, c.name, INDEX_FILENAME);
      }
    }
  }

  /** Everything between closing the client and updating the account store. */
  method Forward(w: StagedTree, l: Layout, op: Operation, oldName: string, configs: map<Path, Item>, hist: set<Path>)
    returns (ok: bool, ghost x: Trail)
    requires Ready(w) && w.created == [] && w.edited == {} && w.pruned == {} && w.snapshots == map[]
    requires Start(w.fs, l, op, oldName, configs) && hist == HistoryFiles(w.fs, l, oldName)
    requires Planned(w.fs, l, op, oldName)
    requires op.Rename? ==> op.newName != ""
    modifies w
    ensures Recorded(w.State()) && Kept(w) && w.pruned <= {In(l.signs, oldName)} && (op.Rename? ==> w.pruned == {})
    ensures ok ==> Orderly(w.State()) && IndexPath(l) !in w.edited && Outside(w.created, IndexPath(l))
    ensures ok ==> x.b == old(w.fs) && x.migrated == w.fs && Progressed(x, l, op, oldName, configs)
    ensures ok && op.Delete? && IsEmptyDir(old(w.fs), In(l.signs, oldName)) ==> Unbacked(w, In(l.signs, oldName))
    ensures ok ==> ForwardSmooth(old(w.fs), l, op, oldName, configs)
    ensures Calm(w.tear) && ForwardSmooth(old(w.fs), l, op, oldName, configs) ==> ok
  {
    ghost var b := w.fs;
    x := Trail(b, b, b, b, b, b);
    SmoothIsReady(b, l, op, oldName, configs);
    ok := ForwardSidecars(w, l, op, oldName);
    if !ok { return; }
    x := x.(sidecars := w.fs);
    TasksStillReady(x, l, op, oldName, configs);
    ghost var configured;
    ok, configured := ForwardTasks(w, l, op, oldName, configs);
    if !ok { return; }
    x := x.(configured := configured, retired := w.fs);
    HistoryStillReady(x, l, op, oldName, configs);
    CreatedOutsideHistory(w.created, l, op);
    forall p | p in w.edited ensures !Under(l.history, p) { AreasDisjoint(l, p); }
    ok := ForwardHistory(w, l, op, oldName, hist);
    x := x.(migrated := w.fs);
    assert Under(l.history, IndexPath(l));
    if ok && op.Delete? && IsEmptyDir(b, In(l.signs, oldName)) {
      NothingBacksUp(w, x, l, op, oldName, configs);
    }
  }

  lemma CreatedOutsideHistory(created: seq<Path>, l: Layout, op: Operation)
    requires l.Valid() && forall c :: c in created ==>
      Apart(c, l.history) || (op.Rename? && c == In(l.signs, op.newName))
    ensures Outside(created, l.history)
  {
    if op.Rename? {
      assert Under(l.signs, In(l.signs, op.newName));
      ApartChildren(l.signs, l.history, In(l.signs, op.newName), l.history);
    }
  }

  /** The directory was removed, and no snapshot holds it. */
  ghost predicate Unbacked(w: StagedTree, d: Path)
    reads w
  {
    d !in w.fs && !Covered(w.snapshots, d)
  }

  lemma NothingBacksUp(w: StagedTree, x: Trail, l: Layout, op: Operation, oldName: string, configs: map<Path, Item>)
    requires Start(x.b, l, op, oldName, configs) && Progressed(x, l, op, oldName, configs) && w.fs == x.migrated
    requires op.Delete? && IsEmptyDir(x.b, In(l.signs, oldName))
    requires w.snapshots.Keys <= Sidecars(l, oldName) + Targets(configs) + HistoryFiles(x.b, l, oldName)
    ensures Unbacked(w, In(l.signs, oldName))
  {
    var d := In(l.signs, oldName);
    assert Under(l.signs, d);
    forall s | s in w.snapshots ensures !Under(s, d) {
      if s in Targets(configs) {
        var p :| p in configs && s == Target(configs, p);
        TargetApart(x.b, l, oldName, configs, p);
      } else {
        AreasDisjoint(l, d);
        if s in Sidecars(l, oldName) {
          var e := SidecarShape(l, oldName, s);
          Confined(s.parent, s, d);
        } else {
          Confined(l.history, s, d);
        }
      }
    }
    HistoryLeaves(x, l, op, oldName, d);
  }

  lemma TargetApart(b: Tree, l: Layout, oldName: string, configs: map<Path, Item>, p: Path)
    requires WellFormed(b) && InventoryOf(b, l, configs) && p in configs && IsEmptyDir(b, In(l.signs, oldName))
    ensures !Under(Target(configs, p), In(l.signs, oldName))
  {
    assert IsFile(b, p) && Under(p.parent, p);
    if configs[p].owned && Under(p.parent, In(l.signs, oldName)) {
      OwnDirectoryOutside(b, l, oldName, configs, p);
    }
  }

  /** Purging the history does not bring back a path outside it. */
  lemma HistoryLeaves(x: Trail, l: Layout, op: Operation, oldName: string, d: Path)
    requires HistoryDone(x.retired, x.migrated, l, op, oldName, HistoryFiles(x.b, l, oldName)) && op.Delete?
    requires d !in x.retired
    ensures d !in x.migrated
  {
    var hist := HistoryFiles(x.b, l, oldName);
    assert op.purgeHistory ==> UnderAny(hist, d) || Same(x.retired, x.migrated, d);
  }

  ghost predicate Progressed(x: Trail, l: Layout, op: Operation, oldName: string, configs: map<Path, Item>)
  {
    && SidecarsDone(x.b, x.sidecars, l, op, oldName)
    && TasksDone(x.sidecars, x.configured, x.retired, l, op, oldName, configs)
    && HistoryDone(x.retired, x.migrated, l, op, oldName, HistoryFiles(x.b, l, oldName))
  }

  lemma TasksStillReady(x: Trail, l: Layout, op: Operation, oldName: string, configs: map<Path, Item>)
    requires SidecarsDone(x.b, x.sidecars, l, op, oldName) && Start(x.b, l, op, oldName, configs)
    ensures InventoryOf(x.sidecars, l, configs)
    ensures TasksReady(x.b, l, op, oldName, configs) <==> TasksReady(x.sidecars, l, op, oldName, configs)
    ensures IsEmptyDir(x.b, In(l.signs, oldName)) ==> IsEmptyDir(x.sidecars, In(l.signs, oldName))
  {
    forall q | Under(l.signs, q) ensures Same(x.b, x.sidecars, q) {
      AreasDisjoint(l, q);
      SidecarStepConfined(x.b, x.sidecars, l, op, oldName, q);
    }
    assert Under(l.signs, In(l.signs, oldName)) && (op.Rename? ==> Under(l.signs, In(l.signs, op.newName)));
    forall q | Under(In(l.signs, oldName), q) ensures Under(l.signs, q) {
      UnderTrans(l.signs, In(l.signs, oldName), q);
    }
  }

  lemma HistoryStillReady(x: Trail, l: Layout, op: Operation, oldName: string, configs: map<Path, Item>)
    requires SidecarsDone(x.b, x.sidecars, l, op, oldName) && Start(x.b, l, op, oldName, configs)
    requires TasksDone(x.sidecars, x.configured, x.retired, l, op, oldName, configs)
    ensures forall q :: Under(l.history, q) ==> Same(x.b, x.retired, q)
    ensures HistoryReady(x.b, op, HistoryFiles(x.b, l, oldName))
      <==> HistoryReady(x.retired, op, HistoryFiles(x.b, l, oldName))
  {
    forall q | Under(l.history, q) ensures Same(x.b, x.retired, q) {
      AreasDisjoint(l, q);
      SidecarStepConfined(x.b, x.sidecars, l, op, oldName, q);
      TaskStepsConfined(x.b, x.sidecars, x.configured, x.retired, l, op, oldName, configs, q);
    }
    forall s | s in HistoryFiles(x.b, l, oldName)
      ensures Same(x.b, x.retired, s) && (op.Rename? ==> Same(x.b, x.retired, HistoryDest(s, op.newName)))
    {
      assert s.parent == l.history && Under(l.history, s);
      if op.Rename? {
        var d := HistoryDest(s, op.newName);
        assert d.parent == l.history && Under(l.history, d);
      }
    }
  }

  // ---------- the transaction ----------

  lemma SidecarArea(l: Layout, name: string, q: Path)
    requires q in Sidecars(l, name)
    ensures Under(l.sessions, q) || Under(l.avatars, q)
  {
    var e := SidecarShape(l, name, q);
    assert Under(q.parent, q);
  }

  /** The same inventory is found after the client is closed. */
  lemma InventoryUnaffected(t: Tree, closed: Tree, l: Layout, oldName: string)
    requires l.Valid() && ClosedFrom(t, closed, l, oldName) && ConfigsParse(t, l)
    ensures ConfigsParse(closed, l)
    ensures Inventory(t, l, oldName) == Inventory(closed, l, oldName)
    ensures HistoryFiles(t, l, oldName) == HistoryFiles(closed, l, oldName)
    ensures forall q :: Under(l.signs, q) || Under(l.history, q) ==> Same(t, closed, q)
  {
    forall q | Under(l.signs, q) || Under(l.history, q) ensures Same(t, closed, q) {
      AreasDisjoint(l, q);
      if q in Sidecars(l, oldName) {
        SidecarArea(l, oldName, q);
      }
    }
    assert forall q :: IsHistoryFile(l, oldName, q) ==> Under(l.history, q);
    assert forall q :: IsConfigPath(l, q) ==> Under(l.signs, q);
  }

  /** A rollback that restored everything outside `pruned` restored the whole tree, up to one empty directory. */
  lemma RestoredTree(base: Tree, t: Tree, l: Layout, op: Operation, oldName: string, pruned: set<Path>)
    requires Restored(base, t, pruned) && pruned <= {In(l.signs, oldName)} && (op.Rename? ==> pruned == {})
    requires forall q :: q in pruned ==> q in base && base[q].Dir?
    ensures RolledBackTo(base, t, l, op, oldName)
  {
    var d := In(l.signs, oldName);
    if d in pruned && !Same(t, base, d) {
      assert IsEmptyDir(base, d);
      forall q ensures Same(t, Remove(base, d), q) {
        if q !in pruned { assert Same(t, base, q); }
        assert q in base && Under(d, q) ==> q == d;
      }
      assert t == Remove(base, d);
    } else {
      assert forall q :: Same(t, base, q);
      assert t == base;
    }
  }

  lemma StartHolds(t: Tree, closed: Tree, accounts: map<string, Profile>, l: Layout, op: Operation, oldName: string,
                   here: Surroundings)
    requires l.Valid() && ClosedFrom(t, closed, l, oldName) && Plannable(t, accounts, l, op, oldName, here)
    ensures ConfigsParse(closed, l)
    ensures Inventory(t, l, oldName) == Inventory(closed, l, oldName)
    ensures HistoryFiles(t, l, oldName) == HistoryFiles(closed, l, oldName)
    ensures Start(closed, l, op, oldName, Inventory(closed, l, oldName)) && Planned(closed, l, op, oldName)
  {
    InventoryUnaffected(t, closed, l, oldName);
    InventoryIsInventory(closed, l, oldName);
    if op.Rename? {
      assert Under(l.signs, In(l.signs, op.newName));
      assert Same(t, closed, In(l.signs, op.newName));
    }
    StillPlanned(t, closed, accounts, l, op, oldName, here);
  }

  /** Closing the client neither occupies a destination nor makes a directory of a file. */
  lemma StillPlanned(t: Tree, closed: Tree, accounts: map<string, Profile>, l: Layout, op: Operation, oldName: string,
                     here: Surroundings)
    requires l.Valid() && ClosedFrom(t, closed, l, oldName) && Plannable(t, accounts, l, op, oldName, here)
    ensures Planned(closed, l, op, oldName)
  {
    InventoryUnaffected(t, closed, l, oldName);
    forall p | p in ExistingSidecars(closed, l, oldName)
      ensures if op.Rename? then SidecarDest(p, oldName, op.newName) !in closed else IsFile(closed, p)
    {
      assert p in ExistingSidecars(t, l, oldName);
      if op.Rename? { DestIsNoSource(l, oldName, op.newName, p); }
    }
    forall p | p in HistoryFiles(closed, l, oldName)
      ensures IsFile(closed, p) && (op.Rename? ==> HistoryDest(p, op.newName) !in closed)
    {
      assert Under(l.history, p) && (op.Rename? ==> Under(l.history, HistoryDest(p, op.newName)));
    }
  }

  lemma DestIsNoSource(l: Layout, oldName: string, newName: string, p: Path)
    requires l.Valid() && oldName != newName && p in Sidecars(l, oldName)
    ensures SidecarDest(p, oldName, newName) !in Sidecars(l, oldName)
  {
    var d := SidecarDest(p, oldName, newName);
    SidecarPlan(l, oldName, newName, Sidecars(l, oldName));
    forall s | s in Sidecars(l, oldName) ensures s != d {
      assert Apart(s, SidecarMove(oldName, newName)(p));
      assert Under(d, d);
    }
  }

  /** The specification of a completed change, path by path, and what it means for the accounts. */
  ghost predicate Finished(b: Tree, t: Tree, l: Layout, op: Operation, oldName: string)
  {
    && ConfigsParse(b, l) && Applied(b, t, l, op, oldName, Inventory(b, l, oldName)) && Validated(t, l, oldName)
    && match op
       case Rename(newName) => AccountRenamed(b, t, l, oldName, newName)
       case Delete(purge) => AccountDeleted(b, t, l, oldName, purge)
  }

  /** The old account's profile is gone, a rename has carried it over, and nobody else's has changed. */
  ghost predicate StoreUpdated(a: map<string, Profile>, b: map<string, Profile>, op: Operation, oldName: string,
                               now: nat)
  {
    && oldName !in b
    && (forall x :: x != oldName && (op.Delete? || x != op.newName) ==>
      (x in b <==> x in a) && (x in b ==> b[x] == a[x]))
    && (op.Rename? && oldName in a ==> op.newName in b && b[op.newName] == a[oldName].(updatedAt := now))
    && (op.Rename? && oldName !in a ==> (op.newName in b <==> op.newName in a))
  }

  /** A store update, finished or not, has touched at most the two profiles of the change. */
  ghost predicate StoreTouched(before: map<string, Profile>, now: map<string, Profile>, op: Operation, oldName: string)
  {
    && (forall a :: a != oldName && (op.Delete? || a != op.newName) ==>
      (a in now <==> a in before) && (a in now ==> now[a] == before[a]))
    && (oldName in now ==> oldName in before)
  }

  /** What a rollback keeps of the tree in the worst case. */
  function Remains(base: Tree, l: Layout, op: Operation, oldName: string): Tree
  {
    if op.Delete? && IsEmptyDir(base, In(l.signs, oldName)) then Remove(base, In(l.signs, oldName)) else base
  }

  class AccountService {
    const layout: Layout
    var fs: Tree
    var accounts: map<string, Profile>

    constructor (layout: Layout, fs: Tree, accounts: map<string, Profile>)
      ensures this.layout == layout && this.fs == fs && this.accounts == accounts
    {
      this.layout, this.fs, this.accounts := layout, fs, accounts;
    }

    /**
     * `rename_account_entry` or `delete_account_session_string`; `fault` picks where saving the store may
     * raise, possibly after the cached table was already changed.
     */
    method UpdateStore(op: Operation, oldName: string, now: nat, fault: nat) returns (ok: bool)
      requires op.Rename? ==> op.newName != oldName
      modifies this`accounts
      ensures StoreTouched(old(accounts), accounts, op, oldName)
      ensures ok ==> StoreUpdated(old(accounts), accounts, op, oldName, now)
      ensures fault == 0 && (op.Rename? ==> op.newName !in old(accounts)) ==> ok
      ensures fault != 0 && oldName in old(accounts) ==> !ok
    {
      if oldName !in accounts { return true; }
      if fault == 1 { return false; }
      match op {
        case Rename(newName) =>
          var entry := accounts[oldName];
          accounts := accounts - {oldName};
          if newName in accounts || fault == 2 { return false; }
          accounts := accounts[newName := entry.(updatedAt := now)];
        case Delete(_) =>
          accounts := accounts - {oldName};
      }
      ok := fault == 0;
    }

    /** The profile part of the exception handler undoes whatever a store update got done. */
    method RestoreStore(op: Operation, oldName: string, original: Option<Profile>, ghost before: map<string, Profile>)
      requires StoreTouched(before, accounts, op, oldName) && original == ProfileOf(before, oldName)
      requires op.Rename? ==> op.newName !in before && op.newName != oldName
      modifies this`accounts
      ensures accounts == before
    {
      if op.Rename? { accounts := accounts - {op.newName}; }
      if original.Some? { accounts := accounts[oldName := original.value]; }
      assert forall a :: a in accounts <==> a in before;
    }

    /**
     * `apply_account_change_plan`.  `closed` is the tree once the Telegram client is closed, or as far as closing got;
     * `tear` and `storeFault` decide what raises and how much of its work is done by then; `index` is the rebuilt
     * index.
     */
    method Apply(plan: Plan, here: Surroundings, closed: Tree, tear: Faults, storeFault: nat, now: nat,
                 index: Option<Content>)
      returns (outcome: Outcome)
      requires layout.Valid() && WellFormed(fs) && Honest(tear) && ClosedFrom(fs, closed, layout, plan.oldName)
      modifies this
      // a busy account, an impossible change or a stale plan is rejected and changes nothing
      ensures outcome.Rejected? <==> !PlanAccepted(old(fs), old(accounts), layout, plan, here)
      ensures outcome.Rejected? ==> fs == old(fs) && accounts == old(accounts)
      // whatever raises, wherever, the tree and the account store are restored
      ensures outcome.RolledBack? ==> accounts == old(accounts)
      ensures outcome.RolledBack? ==> fs == old(fs) || RolledBackTo(closed, fs, layout, plan.op, plan.oldName)
      // a change that runs to its end has done exactly what it should
      ensures outcome.Done? ==> Finished(closed, fs, layout, plan.op, plan.oldName)
      ensures outcome.Done? ==> StoreUpdated(old(accounts), accounts, plan.op, plan.oldName, now)
      // it never does so where a step raises by itself, and without faults it does so everywhere else
      ensures outcome.Done? ==> FullySmooth(closed, layout, plan.op, plan.oldName)
      ensures !outcome.Rejected? && Calm(tear) && storeFault == 0 ==>
        (outcome.Done? <==> FullySmooth(closed, layout, plan.op, plan.oldName))
      // an empty account directory is the only thing a rollback can lose, and after a failed store update it is lost
      ensures !outcome.Rejected? && Calm(tear) && storeFault != 0 && plan.oldName in old(accounts) ==>
        FullySmooth(closed, layout, plan.op, plan.oldName) ==>
        outcome.RolledBack? && fs == Remains(closed, layout, plan.op, plan.oldName)
    {
      var op, oldName := plan.op, plan.oldName;
      if !PlanAccepted(fs, accounts, layout, plan, here) { return Rejected; }
      var original := ProfileOf(accounts, oldName);
      var ok, w := Run(op, oldName, here, closed, tear, storeFault, now, index);
      if ok {
        fs := w.fs;
        return Done;
      }
      Undo(w, op, oldName, original, old(accounts));
      outcome := RolledBack;
    }

    /** The exception handler. */
    method Undo(w: StagedTree, op: Operation, oldName: string, original: Option<Profile>,
                ghost before: map<string, Profile>)
      requires Recorded(w.State()) && w.pruned <= {In(layout.signs, oldName)} && (op.Rename? ==> w.pruned == {})
      requires StoreTouched(before, accounts, op, oldName) && original == ProfileOf(before, oldName)
      requires op.Rename? ==> op.newName !in before && op.newName != oldName
      modifies this`fs, this`accounts, w
      ensures RolledBackTo(old(w.base), fs, layout, op, oldName)
      ensures old(w.pruned) == {} ==> fs == old(w.base)
      ensures old(Unbacked(w, In(layout.signs, oldName))) && IsEmptyDir(old(w.base), In(layout.signs, oldName)) ==>
        In(layout.signs, oldName) !in fs
      ensures accounts == before
    {
      ghost var base, pruned := w.base, w.pruned;
      assert NodeRecorded(w.State(), In(layout.signs, oldName));
      assert Unbacked(w, In(layout.signs, oldName)) && IsEmptyDir(base, In(layout.signs, oldName)) ==>
        Forsaken(w.State(), In(layout.signs, oldName));
      w.Rollback();
      RestoredTree(base, w.fs, layout, op, oldName, pruned);
      assert pruned == {} ==> w.fs == base by {
        assert pruned == {} ==> forall q :: Same(w.fs, base, q);
      }
      fs := w.fs;
      RestoreStore(op, oldName, original, before);
    }

    /** The body of the `try` block of an accepted change. */
    method Run(op: Operation, oldName: string, here: Surroundings, closed: Tree, tear: Faults, storeFault: nat,
               now: nat, index: Option<Content>)
      returns (ok: bool, w: StagedTree)
      requires layout.Valid() && WellFormed(fs) && Honest(tear) && ClosedFrom(fs, closed, layout, oldName)
      requires Plannable(fs, accounts, layout, op, oldName, here)
      modifies this`accounts
      ensures fresh(w) && Recorded(w.State()) && (w.base == fs || w.base == closed)
      ensures w.base != closed ==> w.pruned == {}
      ensures w.pruned <= {In(layout.signs, oldName)} && (op.Rename? ==> w.pruned == {})
      ensures StoreTouched(old(accounts), accounts, op, oldName)
      ensures ok ==>
        Finished(closed, w.fs, layout, op, oldName) && StoreUpdated(old(accounts), accounts, op, oldName, now)
      ensures ok ==> FullySmooth(closed, layout, op, oldName)
      ensures Calm(tear) && storeFault == 0 && FullySmooth(closed, layout, op, oldName) ==> ok
      ensures Calm(tear) && storeFault != 0 && oldName in old(accounts) && FullySmooth(closed, layout, op, oldName) ==>
        !ok && w.base == closed
          && (op.Delete? && IsEmptyDir(closed, In(layout.signs, oldName)) ==> Unbacked(w, In(layout.signs, oldName)))
    {
      var configs, hist := Inventory(fs, layout, oldName), HistoryFiles(fs, layout, oldName);
      StartHolds(fs, closed, accounts, layout, op, oldName, here);
      w := new StagedTree(fs, tear);
      ok := w.Step();  // stopping the monitors
      if !ok { return; }
      w := new StagedTree(closed, tear);
      ok := w.Step();  // closing the client, and the second check for running tasks
      if !ok { return; }
      ok := Stage(w, op, oldName, configs, hist, storeFault, now, index);
    }

    /** The staged part: forward steps, account store, validation. */
    method Stage(w: StagedTree, op: Operation, oldName: string, configs: map<Path, Item>, hist: set<Path>,
                 storeFault: nat, now: nat, index: Option<Content>) returns (ok: bool)
      requires Ready(w) && w.created == [] && w.edited == {} && w.pruned == {} && w.snapshots == map[]
      requires ConfigsParse(w.fs, layout) && Start(w.fs, layout, op, oldName, configs)
      requires Planned(w.fs, layout, op, oldName)
      requires configs == Inventory(w.fs, layout, oldName) && hist == HistoryFiles(w.fs, layout, oldName)
      requires op.Rename? ==> op.newName != "" && op.newName != oldName && op.newName !in accounts
      modifies this`accounts, w
      ensures Recorded(w.State()) && w.base == old(w.base)
      ensures w.pruned <= {In(layout.signs, oldName)} && (op.Rename? ==> w.pruned == {})
      ensures StoreTouched(old(accounts), accounts, op, oldName)
      ensures ok ==>
        Finished(old(w.fs), w.fs, layout, op, oldName) && StoreUpdated(old(accounts), accounts, op, oldName, now)
      ensures ok ==> FullySmooth(old(w.fs), layout, op, oldName)
      ensures Calm(w.tear) && storeFault == 0 && FullySmooth(old(w.fs), layout, op, oldName) ==> ok
      ensures Calm(w.tear) && storeFault != 0 && oldName in old(accounts)
        && FullySmooth(old(w.fs), layout, op, oldName)
        ==> !ok && (op.Delete? && IsEmptyDir(old(w.fs), In(layout.signs, oldName)) ==>
          Unbacked(w, In(layout.signs, oldName)))
    {
      ghost var x;
      ok, x := Forward(w, layout, op, oldName, configs, hist);
      if !ok { return; }
      ok := UpdateStore(op, oldName, now, storeFault);
      if !ok { return; }
      ok := Finish(w, op, oldName, index, x);
    }

    /** Validation, the history index, and the refresh of the running services. */
    method Finish(w: StagedTree, op: Operation, oldName: string, index: Option<Content>, ghost x: Trail)
      returns (ok: bool)
      requires Ready(w) && IndexPath(layout) !in w.edited && Outside(w.created, IndexPath(layout))
      requires op.Rename? ==> op.newName != ""
      requires ConfigsParse(x.b, layout) && Start(x.b, layout, op, oldName, Inventory(x.b, layout, oldName))
      requires Progressed(x, layout, op, oldName, Inventory(x.b, layout, oldName)) && x.migrated == w.fs
      modifies w`fs, w`snapshots, w`created, w`steps, w`edited
      ensures Recorded(w.State())
      ensures ok ==> Finished(x.b, w.fs, layout, op, oldName)
      ensures ok ==> ReadsAsConfig(x.b, layout, op, oldName)
      ensures Calm(w.tear) && ReadsAsConfig(x.b, layout, op, oldName) ==> ok
    {
      ghost var configs := Inventory(x.b, layout, oldName);
      ChangeApplied(x.(t := x.migrated), layout, op, oldName, configs);
      ValidationExact(x.b, x.migrated, layout, op, oldName);
      if !Validated(w.fs, layout, oldName) { return false; }
      ok := RebuildIndex(w, layout, index);
      if !ok { return; }
      ChangeApplied(x.(t := w.fs), layout, op, oldName, configs);
      match op {
        case Rename(newName) => RenameOutcome(x.b, w.fs, layout, oldName, newName);
        case Delete(purge) => DeleteOutcome(x.b, w.fs, layout, oldName, purge);
      }
      ValidationSurvivesIndex(x.migrated, w.fs, layout, oldName);
      ok := w.Step();
    }
  }

  lemma ValidationSurvivesIndex(m: Tree, t: Tree, l: Layout, oldName: string)
    requires Validated(m, l, oldName) && l.Valid() && forall q :: q != IndexPath(l) ==> Same(m, t, q)
    ensures Validated(t, l, oldName)
  {
    var index := IndexPath(l);
    assert Under(l.history, index);
    AreasDisjoint(l, index);
    assert Under(l.signs, In(l.signs, oldName));
    assert Same(m, t, In(l.signs, oldName));
    forall i | 0 <= i < |SESSION_SUFFIXES| ensures In(l.sessions, oldName + SESSION_SUFFIXES[i]) !in t {
      var p := In(l.sessions, oldName + SESSION_SUFFIXES[i]);
      assert Under(l.sessions, p);
      assert Same(m, t, p);
    }
    forall q | q in t && IsConfigPath(l, q)
      ensures t[q].File? && t[q].content.Task? && !References(t[q].content.config, oldName)
    {
      assert Same(m, t, q);
    }
  }
}
