/** The mutable side of a staged change: `snapshot`, `move`, the destructive primitives, and the rollback handler. */
module StagedTree {
  import opened Text
  import opened TaskConfig
  import opened FileTree
  import opened StagedChange

  /**
   * The environment: `tear(n, t, foot, created)` says whether the `n`-th primitive raises, and then what
   * tree it leaves when it was working below `foot` on the tree `t`.
   */
  type Faults = (nat, Tree, Path, seq<Path>) -> Option<Tree>

  ghost predicate Honest(tear: Faults)
  {
    forall n, t, foot, created :: tear(n, t, foot, created).Some? && WellFormed(t) ==>
      Torn(t, tear(n, t, foot, created).value, foot, created)
  }

  /** No primitive raises on its own account. */
  ghost predicate Calm(tear: Faults)
  {
    forall n, t, foot, created :: tear(n, t, foot, created).None?
  }

  /**
   * What the rollback leaves: the tree `base`, except that an empty directory removed without a snapshot stays
   * away.
   */
  ghost predicate Restored(base: Tree, t: Tree, pruned: set<Path>)
  {
    && (forall q :: q !in pruned ==> Same(t, base, q))
    && (forall q :: q in pruned ==>
      Same(t, base, q) || (q !in t && forall r :: r in base && Under(q, r) ==> r in pruned))
  }

  /** At most a snapshot of `p` was added. */
  predicate Added(before: map<Path, Tree>, after: map<Path, Tree>, p: Path)
  {
    before.Keys <= after.Keys <= before.Keys + {p}
  }

  class StagedTree {
    const tear: Faults
    var fs: Tree
    var snapshots: map<Path, Tree>
    var created: seq<Path>
    var steps: nat
    ghost var base: Tree
    ghost var edited: set<Path>
    ghost var pruned: set<Path>

    ghost function State(): Stage
      reads this
    {
      Stage(base, fs, snapshots, created, edited, pruned)
    }

    constructor (tree: Tree, tear: Faults)
      requires WellFormed(tree) && Honest(tear)
      ensures this.tear == tear && fs == base == tree && snapshots == map[] && created == []
      ensures edited == {} && pruned == {}
      ensures Orderly(State())
    {
      this.tear := tear;
      fs, snapshots, created, steps := tree, map[], [], 0;
      base, edited, pruned := tree, {}, {};
    }

    /** Let the environment decide about the next primitive. */
    method Attempt(foot: Path) returns (torn: Option<Tree>)
      requires WellFormed(fs) && Honest(tear)
      modifies this`steps
      ensures torn.Some? ==> Torn(fs, torn.value, foot, created)
      ensures Calm(tear) ==> torn.None?
    {
      torn := tear(steps, fs, foot, created);
      steps := steps + 1;
    }

    /** A step that may raise without touching the tree. */
    method Step() returns (ok: bool)
      requires WellFormed(fs) && Honest(tear)
      modifies this`steps
      ensures Calm(tear) ==> ok
    {
      var torn := Attempt(Root);
      ok := torn.None?;
    }

    method Snapshot(p: Path) returns (ok: bool)
      requires Honest(tear) && Orderly(State())
      requires p in snapshots || p !in edited
      requires forall c :: c in created ==> Apart(c, p)
      modifies this`snapshots, this`steps
      ensures Orderly(State())
      ensures p in fs && ok ==> p in snapshots
      ensures Added(old(snapshots), snapshots, p)
      ensures Calm(tear) ==> ok
    {
      ok := true;
      if p in fs && p !in snapshots {
        ok := Step();
        if ok {
          SnapshotStep(State(), p);
          snapshots := snapshots[p := Subtree(fs, p)];
        }
      }
    }

    /** `snapshot(p)` followed by `unlink` (a file) or `rmtree` (a directory). */
    method Erase(p: Path, directory: bool) returns (ok: bool)
      requires Honest(tear) && Orderly(State())
      requires p in snapshots || p !in edited
      requires forall c :: c in created ==> Apart(c, p)
      modifies this`fs, this`snapshots, this`steps
      ensures Recorded(State()) && Added(old(snapshots), snapshots, p)
      ensures ok ==> Orderly(State()) && p in old(fs) && fs == Remove(old(fs), p)
      ensures Calm(tear) && p in old(fs) && old(fs)[p].Dir? == directory ==> ok
    {
      ok := Snapshot(p);
      if !ok { return; }
      if p !in fs || fs[p].Dir? != directory { return false; }
      ok := Discard(p);
    }

    /** `unlink` or `rmtree` of a snapshotted path. */
    method Discard(p: Path) returns (ok: bool)
      requires Honest(tear) && Orderly(State()) && p in fs && p in snapshots
      modifies this`fs, this`steps
      ensures Recorded(State())
      ensures ok ==> Orderly(State()) && fs == Remove(old(fs), p)
      ensures Calm(tear) ==> ok
    {
      var torn := Attempt(p);
      if torn.Some? {
        TornStep(State(), torn.value, p, p);
        fs := torn.value;
        return false;
      }
      RemovalStep(State(), p);
      fs := Remove(fs, p);
      ok := true;
    }

    /** `move`: snapshot, check that the destination is free, announce it, rename. */
    method Move(p: Path, dest: Path) returns (ok: bool)
      requires Honest(tear) && Orderly(State())
      requires p in snapshots || p !in edited
      requires forall c :: c in created ==> Apart(c, p)
      requires Apart(p, dest) && p.In? && dest.In? && p.parent == dest.parent
      modifies this`fs, this`snapshots, this`created, this`steps
      ensures Recorded(State()) && Added(old(snapshots), snapshots, p)
      ensures ok ==> Orderly(State()) && p in old(fs) && dest !in old(fs)
      ensures ok ==> fs == MoveTree(old(fs), p, dest) && created == old(created) + [dest]
      ensures Calm(tear) && p in old(fs) && dest !in old(fs) ==> ok
    {
      ok := Snapshot(p);
      if !ok { return; }
      ok := Rename(p, dest);
    }

    /** `move` after its snapshot. */
    method Rename(p: Path, dest: Path) returns (ok: bool)
      requires Honest(tear) && Orderly(State()) && (p in fs ==> p in snapshots)
      requires Apart(p, dest) && p.In? && dest.In? && p.parent == dest.parent
      modifies this`fs, this`created, this`steps
      ensures Recorded(State())
      ensures ok ==> Orderly(State()) && p in old(fs) && dest !in old(fs)
      ensures ok ==> fs == MoveTree(old(fs), p, dest) && created == old(created) + [dest]
      ensures Calm(tear) && p in old(fs) && dest !in old(fs) ==> ok
    {
      if dest in fs { return false; }
      ok := MakeRoom(dest);
      if !ok { return; }
      if p !in fs { return false; }
      ok := Relocate(p, dest);
    }

    /** `mkdir` of a parent directory that exists, since it holds the source, then the announcement. */
    method MakeRoom(dest: Path) returns (ok: bool)
      requires Honest(tear) && Orderly(State()) && dest !in fs
      modifies this`created, this`steps
      ensures Orderly(State()) && (ok ==> created == old(created) + [dest]) && (!ok ==> created == old(created))
      ensures Calm(tear) ==> ok
    {
      ok := Step();
      if ok { Announce(dest); }
    }

    /** `created.append(dest)` for a destination that does not exist yet. */
    method Announce(dest: Path)
      requires Orderly(State()) && dest !in fs
      modifies this`created
      ensures Orderly(State()) && created == old(created) + [dest]
    {
      CreateStep(State(), dest);
      created := created + [dest];
    }

    /** `rename` of a snapshotted path to an announced destination. */
    method Relocate(p: Path, dest: Path) returns (ok: bool)
      requires Honest(tear) && Orderly(State())
      requires p in fs && p in snapshots && dest !in fs && dest in created
      requires Apart(p, dest) && p.In? && dest.In? && p.parent == dest.parent
      modifies this`fs, this`steps
      ensures Recorded(State())
      ensures ok ==> Orderly(State()) && fs == MoveTree(old(fs), p, dest)
      ensures Calm(tear) ==> ok
    {
      var torn := Attempt(p);
      if torn.Some? {
        TornStep(State(), torn.value, p, p);
        fs := torn.value;
        return false;
      }
      var u := MoveTree(fs, p, dest);
      MoveTreeWellFormed(fs, p, dest);
      forall q ensures TornAt(fs, u, p, created, q) && (Under(p, q) ==> q !in u) {
        MoveTreeAt(fs, p, dest, q);
      }
      DoneStep(State(), u, p);
      fs := u;
      ok := true;
    }

    /** `write_text` on a file that exists and is covered by a snapshot of itself or of its directory. */
    method Rewrite(p: Path, c: Content) returns (ok: bool)
      requires Honest(tear) && Orderly(State())
      requires p.In? && (p.parent in fs ==> IsFile(fs, p) && (p in snapshots || p.parent in snapshots))
      modifies this`fs, this`steps, this`edited
      ensures Recorded(State())
      ensures ok ==>
        Orderly(State()) && IsFile(old(fs), p) && fs == old(fs)[p := File(c)] && edited == old(edited) + {p}
      ensures Calm(tear) && IsFile(old(fs), p) ==> ok
    {
      assert Under(p.parent, p);
      if p.parent !in fs { return false; }
      var torn := Attempt(p);
      if torn.Some? {
        TornStep(State(), torn.value, p, if p in snapshots then p else p.parent);
        fs := torn.value;
        return false;
      }
      EditStep(State(), p, c, if p in snapshots then p else p.parent);
      fs, edited := fs[p := File(c)], edited + {p};
      ok := true;
    }

    /** `write_text` on a destination this change created. */
    method WriteCreated(p: Path, c: Content) returns (ok: bool)
      requires Honest(tear) && Orderly(State())
      requires p in created && p.In? && p.parent in fs && fs[p.parent].Dir? && (p in fs ==> fs[p].File?)
      modifies this`fs, this`steps
      ensures Recorded(State())
      ensures ok ==> Orderly(State()) && fs == old(fs)[p := File(c)]
      ensures Calm(tear) ==> ok
    {
      var torn := Attempt(p);
      if torn.Some? {
        TornStep(State(), torn.value, p, p);
        fs := torn.value;
        return false;
      }
      forall q | q in fs && Under(p, q) ensures q == p {
      }
      assert WellFormed(fs[p := File(c)]);
      ghost var u := fs[p := File(c)];
      assert forall q :: TornAt(fs, u, p, created, q);
      DoneStep(State(), fs[p := File(c)], p);
      fs := fs[p := File(c)];
      ok := true;
    }

    /** `rmdir` on an empty directory, which takes no snapshot. */
    method RemoveEmpty(d: Path) returns (ok: bool)
      requires Honest(tear) && Orderly(State()) && IsEmptyDir(fs, d) && !UnderCreated(created, d)
      modifies this`fs, this`steps, this`pruned
      ensures Recorded(State()) && pruned == old(pruned) + {d}
      ensures ok ==> Orderly(State()) && fs == Remove(old(fs), d)
      ensures Calm(tear) ==> ok
    {
      var torn := Attempt(d);
      PruneStep(State(), d);
      ok := torn.None?;
      if ok || d !in torn.value {
        fs := Remove(fs, d);
      }
      pruned := pruned + {d};
    }

    // ---------- rollback ----------

    /** `mkdir` of the parents, then `copytree` or `copy2`; the preconditions say that neither can raise. */
    method CopyBack(p: Path, saved: Tree)
      requires p in saved
      requires forall a :: Under(a, p) && a != p && a in fs ==> fs[a].Dir?
      requires if saved[p].Dir? then p !in fs else p in fs ==> fs[p].File?
      modifies this`fs
      ensures fs == MakeParents(old(fs), p) + saved
    {
      fs := MakeParents(fs, p) + saved;
    }

    method RemoveCreated()
      requires Recorded(State())
      modifies this`fs
      ensures WellFormed(fs)
      ensures forall q :: if UnderCreated(created, q) then q !in fs else Same(fs, old(fs), q)
    {
      var i := |created|;
      while i > 0
        invariant 0 <= i <= |created| && WellFormed(fs)
        invariant forall q :: if UnderCreated(created[i..], q) then q !in fs else Same(fs, old(fs), q)
      {
        i := i - 1;
        RemoveWellFormed(fs, created[i]);
        assert created[i..] == [created[i]] + created[i + 1..];
        forall q ensures UnderCreated(created[i..], q) <==> Under(created[i], q) || UnderCreated(created[i + 1..], q) {
          assert created[i] in created[i..];
          assert forall c :: c in created[i + 1..] ==> c in created[i..];
        }
        if created[i] in fs {
          fs := Remove(fs, created[i]);
        }
      }
      assert created[0..] == created;
    }

    /**
     * The exception handler: drop created paths, then copy snapshots back, parents before children, ties in any
     * order.
     */
    method Rollback()
      requires Recorded(State())
      modifies this`fs
      ensures WellFormed(fs) && Restored(base, fs, pruned)
      ensures forall q :: q !in old(fs) && Forsaken(State(), q) ==> q !in fs
    {
      ghost var start := State();
      RemoveCreated();
      var todo := snapshots.Keys;
      StartRollingBack(start, fs);
      while todo != {}
        invariant todo <= snapshots.Keys
        invariant RollingBack(start, fs, todo)
        invariant forall q :: q !in old(fs) && Forsaken(start, q) ==> q !in fs
        decreases todo
      {
        Shallowest(todo);
        var p :| IsShallowest(p, todo);
        assert NodeRecorded(start, p);
        RestoreStep(base, fs, p, snapshots[p]);
        RollbackStep(start, fs, todo, p);
        ghost var t := fs;
        if p in fs && fs[p].Dir? {
          fs := Remove(fs, p);
        }
        CopyBack(p, snapshots[p]);
        assert fs == Restore(t, p, snapshots[p]);
        forall q | q !in t && Forsaken(start, q) ensures q !in fs { StaysForsaken(start, t, p, q); }
        todo := todo - {p};
      }
      EndRollingBack(start, fs);
    }
  }

  /** A completed removal of a snapshotted subtree. */
  lemma RemovalStep(s: Stage, p: Path)
    requires Orderly(s) && p in s.snapshots
    ensures Orderly(s.(fs := Remove(s.fs, p)))
  {
    var u := Remove(s.fs, p);
    RemoveWellFormed(s.fs, p);
    assert forall q :: TornAt(s.fs, u, p, s.created, q);
    DoneStep(s, u, p);
  }

  /** An originally empty directory that no snapshot covers: once gone, nothing brings it back. */
  ghost predicate Forsaken(s: Stage, q: Path)
  {
    IsEmptyDir(s.base, q) && !Covered(s.snapshots, q)
  }

  lemma StaysForsaken(s: Stage, t: Tree, p: Path, q: Path)
    requires p in s.snapshots && SnapshotOk(s.base, p, s.snapshots[p]) && Forsaken(s, q) && q !in t
    ensures q !in Restore(t, p, s.snapshots[p])
  {
    assert !Covers(s.snapshots, p, q);
    assert p in s.base;
  }

  /** The tree has nothing but original nodes, each of its original kind. */
  ghost predicate KindsKept(base: Tree, t: Tree)
  {
    forall q :: q in t ==> q in base && base[q].Dir? == t[q].Dir?
  }

  /**
   * While rolling back from `s`: what no snapshot covers, and what its deepest snapshot has been copied back for,
   * is original.
   */
  ghost predicate RollingBack(s: Stage, t: Tree, todo: set<Path>)
  {
    && WellFormed(t) && KindsKept(s.base, t)
    && (forall d, r :: d in s.snapshots && d !in todo && r in todo ==> Depth(d) <= Depth(r))
    && (forall q :: q !in s.pruned && !Covered(s.snapshots, q) ==> Same(t, s.base, q))
    && (forall q, d :: q !in s.pruned && d !in todo && Deepest(s.snapshots, d, q) ==> Same(t, s.base, q))
  }

  lemma StartRollingBack(s: Stage, t: Tree)
    requires Recorded(s) && WellFormed(t)
    requires forall q :: if UnderCreated(s.created, q) then q !in t else Same(t, s.fs, q)
    ensures RollingBack(s, t, s.snapshots.Keys)
  {
    forall q ensures q in t ==> q in s.base && s.base[q].Dir? == t[q].Dir? {
      assert NodeRecorded(s, q);
    }
    forall q | q !in s.pruned && !Covered(s.snapshots, q) ensures Same(t, s.base, q) {
      assert NodeRecorded(s, q);
    }
  }

  lemma EndRollingBack(s: Stage, t: Tree)
    requires Recorded(s) && RollingBack(s, t, {})
    ensures Restored(s.base, t, s.pruned)
  {
    forall q | q !in s.pruned ensures Same(t, s.base, q) {
      if p :| Covers(s.snapshots, p, q) { DeepestExists(s.snapshots, p, q); }
    }
    forall q | q in s.pruned ensures q in s.base && s.base[q].Dir? {
      assert NodeRecorded(s, q);
    }
  }

  lemma RollbackStep(s: Stage, t: Tree, todo: set<Path>, p: Path)
    requires Recorded(s) && todo <= s.snapshots.Keys && RollingBack(s, t, todo)
    requires IsShallowest(p, todo)
    ensures RollingBack(s, Restore(t, p, s.snapshots[p]), todo - {p})
  {
    var u := Restore(t, p, s.snapshots[p]);
    assert NodeRecorded(s, p);
    RestoreStep(s.base, t, p, s.snapshots[p]);
    forall q | q !in s.pruned && !Covered(s.snapshots, q) ensures Same(u, s.base, q) {
      assert Same(t, s.base, q) && !Covers(s.snapshots, p, q);
    }
    forall q, d | q !in s.pruned && d !in todo - {p} && Deepest(s.snapshots, d, q) ensures Same(u, s.base, q) {
      assert Covers(s.snapshots, d, q) && NodeRecorded(s, q);
      if d != p {
        assert Same(t, s.base, q);
        if Under(p, q) {
          assert Covers(s.snapshots, p, q);
          UnderDepth(p, d);
        }
      }
    }
  }

  function Restore(t: Tree, p: Path, saved: Tree): Tree
  {
    MakeParents(if p in t && t[p].Dir? then Remove(t, p) else t, p) + saved
  }

  /** The next path of a list sorted by depth. */
  predicate IsShallowest(p: Path, ps: set<Path>)
  {
    p in ps && forall r :: r in ps ==> Depth(p) <= Depth(r)
  }

  lemma {:induction false} Shallowest(ps: set<Path>)
    requires ps != {}
    ensures exists p :: IsShallowest(p, ps)
  {
    var p :| p in ps;
    if ps == {p} {
      assert IsShallowest(p, ps);
    } else {
      Shallowest(ps - {p});
      var m :| IsShallowest(m, ps - {p});
      forall r | r in ps ensures Depth(if Depth(p) < Depth(m) then p else m) <= Depth(r) {
        assert r != p ==> r in ps - {p};
      }
      assert IsShallowest(if Depth(p) < Depth(m) then p else m, ps);
    }
  }

  /** Copying a snapshot back is possible: nothing is in its way. */
  lemma RestoreRoom(base: Tree, t: Tree, p: Path, saved: Tree)
    requires WellFormed(base) && WellFormed(t) && KindsKept(base, t) && SnapshotOk(base, p, saved)
    ensures forall a :: Under(a, p) && a != p && a in t ==> t[a].Dir?
    ensures p in t ==> t[p].Dir? == saved[p].Dir?
    ensures var v := if p in t && t[p].Dir? then Remove(t, p) else t;
      forall q :: Under(p, q) && q != p ==> q !in v && !Under(q, p)
  {
    forall q | Under(p, q) && q != p ensures !Under(q, p) {
      if Under(q, p) { UnderDepth(q, p); UnderDepth(p, q); assert false; }
    }
  }

  lemma RestoreWellFormed(base: Tree, t: Tree, p: Path, saved: Tree)
    requires WellFormed(base) && WellFormed(t) && KindsKept(base, t) && SnapshotOk(base, p, saved)
    ensures WellFormed(Restore(t, p, saved))
  {
    RestoreRoom(base, t, p, saved);
    var u := Restore(t, p, saved);
    forall a, q | q in u && Under(a, q) && a != q ensures a in u && u[a].Dir? {
      if Under(p, a) {
        UnderTrans(p, a, q);
      } else if Under(p, q) {
        if Depth(p) <= Depth(a) { UnderComparable(p, a, q); } else { UnderComparable(a, p, q); }
      } else if q !in t {
        UnderTrans(a, q, p);
        UnderDepth(a, q);
        UnderDepth(q, p);
      }
    }
  }

  /** One restored snapshot: exactly its subtree changes, and missing directories above it come back. */
  lemma RestoreStep(base: Tree, t: Tree, p: Path, saved: Tree)
    requires WellFormed(base) && WellFormed(t) && KindsKept(base, t) && SnapshotOk(base, p, saved)
    ensures forall a :: Under(a, p) && a != p && a in t ==> t[a].Dir?
    ensures p in t ==> t[p].Dir? == saved[p].Dir?
    ensures WellFormed(Restore(t, p, saved)) && KindsKept(base, Restore(t, p, saved))
    ensures forall q :: Under(p, q) ==> Same(Restore(t, p, saved), saved, q)
    ensures forall q :: !Under(p, q) && (q in t || q !in base) ==> Same(Restore(t, p, saved), t, q)
  {
    RestoreRoom(base, t, p, saved);
    RestoreWellFormed(base, t, p, saved);
  }
}
