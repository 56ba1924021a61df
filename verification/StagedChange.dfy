/**
 * The rollback bookkeeping of a staged change: which snapshots and created paths protect which paths.
 *
 * `base` is the tree when staging begins and `fs` the tree now.  `edited` and `pruned` are ghost
 * bookkeeping: files rewritten in place, and empty directories removed without a snapshot.
 */
module StagedChange {
  import opened TaskConfig
  import opened FileTree

  datatype Stage = Stage(
    base: Tree, fs: Tree, snapshots: map<Path, Tree>, created: seq<Path>, edited: set<Path>, pruned: set<Path>)

  ghost predicate UnderCreated(created: seq<Path>, q: Path)
  {
    exists c :: c in created && Under(c, q)
  }

  ghost predicate Covers(snapshots: map<Path, Tree>, s: Path, q: Path)
  {
    s in snapshots && Under(s, q)
  }

  ghost predicate Covered(snapshots: map<Path, Tree>, q: Path)
  {
    exists s :: Covers(snapshots, s, q)
  }

  /** `s` is the deepest snapshot that covers `q`. */
  ghost predicate Deepest(snapshots: map<Path, Tree>, s: Path, q: Path)
  {
    Covers(snapshots, s, q) && forall r :: Covers(snapshots, r, q) ==> Under(r, s)
  }

  /** A node of `t` outside created paths was in `base`, with the same kind. */
  ghost predicate KindKept(base: Tree, t: Tree, created: seq<Path>, q: Path)
  {
    q in t ==> UnderCreated(created, q) || (q in base && base[q].Dir? == t[q].Dir?)
  }

  /** A snapshot of `p` holds a well-formed subtree of nodes that `base` knows. */
  ghost predicate SnapshotOk(base: Tree, p: Path, saved: Tree)
  {
    && p in saved
    && (forall q :: q in saved ==> Under(p, q) && q in base && base[q].Dir? == saved[q].Dir?)
    && (forall a, q :: q in saved && Under(p, a) && Under(a, q) && a != q ==> a in saved && saved[a].Dir?)
  }

  /** The original node at `q` can be recovered. */
  ghost predicate Recoverable(s: Stage, q: Path)
  {
    if Covered(s.snapshots, q) then
      forall p :: Deepest(s.snapshots, p, q) ==> Same(s.snapshots[p], s.base, q)
    else if UnderCreated(s.created, q) then q !in s.base
    else Same(s.fs, s.base, q)
  }

  /** What the invariant says about the path `q`. */
  ghost predicate NodeRecorded(s: Stage, q: Path)
  {
    && KindKept(s.base, s.fs, s.created, q)
    && (q in s.snapshots ==> SnapshotOk(s.base, q, s.snapshots[q]))
    && (if q in s.pruned then q in s.base && s.base[q].Dir? else Recoverable(s, q))
  }

  /** The invariant rollback needs; it holds even in the middle of a failed primitive. */
  ghost predicate Recorded(s: Stage)
  {
    WellFormed(s.base) && WellFormed(s.fs) && forall q :: NodeRecorded(s, q)
  }

  /** `p` is a snapshot that accounts for a change at `q`: its subtree is gone, or `q` is an edited file in it. */
  ghost predicate Accounts(s: Stage, p: Path, q: Path)
  {
    Covers(s.snapshots, p, q) && (p !in s.fs || (q in s.edited && (p == q || q.parent == p)))
  }

  /** Why `q` may already differ from the original when a later snapshot is taken. */
  ghost predicate Explained(s: Stage, q: Path)
  {
    Same(s.fs, s.base, q) || UnderCreated(s.created, q) || exists p :: Accounts(s, p, q)
  }

  ghost predicate NodeExplained(s: Stage, q: Path)
  {
    (q in s.edited ==> q.In?) && (q !in s.pruned ==> Explained(s, q))
  }

  /** The additional invariant between completed steps, on which taking the next snapshot relies. */
  ghost predicate Orderly(s: Stage)
  {
    Recorded(s) && forall q :: NodeExplained(s, q)
  }

  lemma {:induction false} DeepestExists(snapshots: map<Path, Tree>, p: Path, q: Path)
    requires Covers(snapshots, p, q)
    ensures exists d :: Deepest(snapshots, d, q)
    decreases Depth(q) - Depth(p)
  {
    if r :| Covers(snapshots, r, q) && Depth(r) > Depth(p) {
      UnderDepth(r, q);
      DeepestExists(snapshots, r, q);
    } else {
      forall r | Covers(snapshots, r, q) ensures Under(r, p) {
        UnderComparable(r, p, q);
      }
      assert Deepest(snapshots, p, q);
    }
  }

  // ---------- what one step of the change may do ----------

  /**
   * A primitive that raises may have done any part of its work below `foot`: nodes there may be gone and
   * files there may hold anything; below created paths anything may have appeared.
   */
  ghost predicate Torn(t: Tree, u: Tree, foot: Path, created: seq<Path>)
  {
    WellFormed(u) && forall q :: TornAt(t, u, foot, created, q)
  }

  ghost predicate TornAt(t: Tree, u: Tree, foot: Path, created: seq<Path>, q: Path)
  {
    || UnderCreated(created, q)
    || if Under(foot, q) then q in u ==> q in t && u[q].Dir? == t[q].Dir? else Same(t, u, q)
  }

  lemma NotUnderCreated(created: seq<Path>, p: Path, q: Path)
    requires Under(p, q)
    ensures (forall c :: c in created ==> Apart(c, p)) ==> !UnderCreated(created, q)
    ensures UnderCreated(created, p) ==> UnderCreated(created, q)
  {
    if forall c :: c in created ==> Apart(c, p) {
      forall c | c in created ensures !Under(c, q) {
        ApartBelow(p, c, q);
      }
    }
    if c :| c in created && Under(c, p) {
      UnderTrans(c, p, q);
    }
  }

  /** Recording a snapshot never loses an original, although files below it may have been edited before. */
  lemma SnapshotStep(s: Stage, p: Path)
    requires Orderly(s)
    requires p in s.fs && p !in s.snapshots && p !in s.edited
    requires forall c :: c in s.created ==> Apart(c, p)
    ensures Orderly(s.(snapshots := s.snapshots[p := Subtree(s.fs, p)]))
  {
    var s' := s.(snapshots := s.snapshots[p := Subtree(s.fs, p)]);
    SnapshotIsOk(s, p);
    forall q ensures NodeRecorded(s', q) && NodeExplained(s', q) {
      assert NodeRecorded(s, q) && NodeExplained(s, q);
      if q !in s.pruned {
        SnapshotStepExplained(s, p, q);
        SnapshotStepRecoverable(s, p, q);
      }
    }
  }

  lemma SnapshotIsOk(s: Stage, p: Path)
    requires Recorded(s) && p in s.fs && forall c :: c in s.created ==> Apart(c, p)
    ensures SnapshotOk(s.base, p, Subtree(s.fs, p))
  {
    forall q | Under(p, q) && q in s.fs ensures q in s.base && s.base[q].Dir? == s.fs[q].Dir? {
      NotUnderCreated(s.created, p, q);
      assert NodeRecorded(s, q);
    }
  }

  lemma SnapshotStepExplained(s: Stage, p: Path, q: Path)
    requires Explained(s, q)
    ensures Explained(s.(snapshots := s.snapshots[p := Subtree(s.fs, p)]), q)
  {
    var s' := s.(snapshots := s.snapshots[p := Subtree(s.fs, p)]);
    if r :| Accounts(s, r, q) { assert Accounts(s', r, q); }
  }

  /** Where the new snapshot is the deepest one, no older one accounts for a change. */
  lemma AboveSnapshot(s: Stage, p: Path, q: Path, r: Path)
    requires WellFormed(s.fs) && p in s.fs && p !in s.snapshots && p !in s.edited && Under(p, q)
    requires Covers(s.snapshots, r, q) ==> Under(r, p)
    ensures !Accounts(s, r, q)
  {
    if Covers(s.snapshots, r, q) {
      UnderDepth(r, p);
      UnderDepth(p, q);
      if q.In? && Under(p, q.parent) { UnderDepth(p, q.parent); }
    }
  }

  lemma SnapshotStepRecoverable(s: Stage, p: Path, q: Path)
    requires Orderly(s) && q !in s.pruned
    requires p in s.fs && p !in s.snapshots && p !in s.edited
    requires forall c :: c in s.created ==> Apart(c, p)
    ensures Recoverable(s.(snapshots := s.snapshots[p := Subtree(s.fs, p)]), q)
  {
    var s' := s.(snapshots := s.snapshots[p := Subtree(s.fs, p)]);
    assert NodeRecorded(s, q) && NodeExplained(s, q);
    assert forall r :: Covers(s.snapshots, r, q) ==> Covers(s'.snapshots, r, q);
    forall d | Deepest(s'.snapshots, d, q) ensures Same(s'.snapshots[d], s.base, q) {
      if d == p {
        NotUnderCreated(s.created, p, q);
        forall r ensures !Accounts(s, r, q) { AboveSnapshot(s, p, q, r); }
      } else {
        assert Deepest(s.snapshots, d, q);
        assert Recoverable(s, q);
      }
    }
    if !Covered(s'.snapshots, q) {
      assert !Covered(s.snapshots, q) && Recoverable(s, q);
    }
  }

  /** Whatever a primitive below a snapshot or a created path does, finished or not, stays recoverable. */
  lemma TornStep(s: Stage, u: Tree, foot: Path, p: Path)
    requires Recorded(s) && Torn(s.fs, u, foot, s.created)
    requires (p in s.snapshots || p in s.created) && Under(p, foot)
    ensures Recorded(s.(fs := u))
  {
    forall q ensures NodeRecorded(s.(fs := u), q) {
      assert NodeRecorded(s, q) && TornAt(s.fs, u, foot, s.created, q);
      if Under(foot, q) {
        UnderTrans(p, foot, q);
        assert p in s.snapshots ==> Covers(s.snapshots, p, q);
      }
    }
  }

  /** A completed removal or move of a snapshotted subtree, or a write below a created path. */
  lemma DoneStep(s: Stage, u: Tree, p: Path)
    requires Orderly(s) && Torn(s.fs, u, p, s.created)
    requires p in s.created || (p in s.snapshots && forall q :: Under(p, q) ==> q !in u)
    ensures Orderly(s.(fs := u))
  {
    TornStep(s, u, p, p);
    var s' := s.(fs := u);
    forall q ensures NodeExplained(s', q) {
      assert NodeExplained(s, q) && TornAt(s.fs, u, p, s.created, q);
      if q in s.pruned {
      } else if Under(p, q) {
        assert p !in s.created ==> Accounts(s', p, q);
      } else if !UnderCreated(s.created, q) {
        if r :| Accounts(s, r, q) {
          NotUnderCreated(s.created, r, q);
          assert TornAt(s.fs, u, p, s.created, r);
          assert Accounts(s', r, q);
        }
      }
    }
  }

  lemma EditIsTorn(t: Tree, q: Path, c: Content, created: seq<Path>)
    requires WellFormed(t) && IsFile(t, q)
    ensures Torn(t, t[q := File(c)], q, created)
  {
    var u := t[q := File(c)];
    forall r ensures TornAt(t, u, q, created, r) {
    }
  }

  lemma RecordedIgnoresEdits(s: Stage, edited: set<Path>)
    requires Recorded(s)
    ensures Recorded(s.(edited := edited))
  {
    var s' := s.(edited := edited);
    forall q: Path ensures NodeRecorded(s', q) {
      assert NodeRecorded(s, q);
    }
  }

  lemma EditExplained(s: Stage, q: Path, c: Content, p: Path, r: Path)
    requires q in s.fs && Covers(s.snapshots, p, q) && q.In? && (p == q || p == q.parent) && Explained(s, r)
    ensures Explained(s.(fs := s.fs[q := File(c)], edited := s.edited + {q}), r)
  {
    var s' := s.(fs := s.fs[q := File(c)], edited := s.edited + {q});
    if r == q {
      assert Accounts(s', p, q);
    } else if e :| Accounts(s, e, r) {
      assert Accounts(s', e, r);
    }
  }

  /** An edit in place of a file that is snapshotted itself or through its directory. */
  lemma EditStep(s: Stage, q: Path, c: Content, p: Path)
    requires Orderly(s) && IsFile(s.fs, q) && q.In?
    requires p in s.snapshots && (p == q || p == q.parent)
    ensures Orderly(s.(fs := s.fs[q := File(c)], edited := s.edited + {q}))
  {
    assert Under(p, q) by { assert Under(q.parent, q); }
    EditIsTorn(s.fs, q, c, s.created);
    TornStep(s, s.fs[q := File(c)], q, p);
    RecordedIgnoresEdits(s.(fs := s.fs[q := File(c)]), s.edited + {q});
    var s' := s.(fs := s.fs[q := File(c)], edited := s.edited + {q});
    forall r ensures NodeExplained(s', r) {
      assert NodeExplained(s, r);
      if r !in s.pruned { EditExplained(s, q, c, p, r); }
    }
  }

  /** Announcing a destination that does not exist yet. */
  lemma CreateStep(s: Stage, c: Path)
    requires Orderly(s) && c !in s.fs
    ensures Orderly(s.(created := s.created + [c]))
  {
    var s' := s.(created := s.created + [c]);
    forall q ensures UnderCreated(s'.created, q) <==> UnderCreated(s.created, q) || Under(c, q) {
      assert c in s'.created && forall d :: d in s.created ==> d in s'.created;
    }
    forall q ensures NodeRecorded(s', q) && NodeExplained(s', q) {
      assert NodeRecorded(s, q) && NodeExplained(s, q);
      assert Under(c, q) && c != q ==> q !in s.fs;
      if e :| Accounts(s, e, q) { assert Accounts(s', e, q); }
    }
  }

  /** Removing an empty directory without a snapshot. */
  lemma PruneStep(s: Stage, d: Path)
    requires Orderly(s) && IsEmptyDir(s.fs, d) && !UnderCreated(s.created, d)
    ensures Orderly(s.(pruned := s.pruned + {d}))
    ensures Orderly(s.(fs := Remove(s.fs, d), pruned := s.pruned + {d}))
  {
    assert NodeRecorded(s, d);
    PruneBookkeeping(s, d);
    var s' := s.(fs := Remove(s.fs, d), pruned := s.pruned + {d});
    RemoveWellFormed(s.fs, d);
    forall q ensures NodeRecorded(s', q) && NodeExplained(s', q) {
      assert NodeRecorded(s, q) && NodeExplained(s, q);
      assert q != d ==> Same(s.fs, s'.fs, q);
      if e :| Accounts(s, e, q) { assert Accounts(s', e, q); }
    }
  }

  lemma PruneBookkeeping(s: Stage, d: Path)
    requires Orderly(s) && d in s.base && s.base[d].Dir?
    ensures Orderly(s.(pruned := s.pruned + {d}))
  {
    var s' := s.(pruned := s.pruned + {d});
    forall q ensures NodeRecorded(s', q) && NodeExplained(s', q) {
      assert NodeRecorded(s, q) && NodeExplained(s, q);
      if e :| Accounts(s, e, q) { assert Accounts(s', e, q); }
    }
  }
}
