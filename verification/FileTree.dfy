/** A file tree as a map from absolute paths to nodes, and the primitives an account change applies to it. */
module FileTree {
  import opened TaskConfig

  datatype Path = Root | In(parent: Path, name: string)

  datatype Node = Dir | File(content: Content)

  type Tree = map<Path, Node>

  /** `q` is `p` or lies below it. */
  predicate Under(p: Path, q: Path)
    decreases q
  {
    p == q || (q.In? && Under(p, q.parent))
  }

  /** The number of path components. */
  function Depth(p: Path): nat
  {
    if p.Root? then 0 else 1 + Depth(p.parent)
  }

  /** Neither path lies at or under the other. */
  predicate Apart(p: Path, q: Path)
  {
    !Under(p, q) && !Under(q, p)
  }

  lemma UnderTrans(a: Path, b: Path, c: Path)
    requires Under(a, b) && Under(b, c)
    ensures Under(a, c)
  {
    if b != c { UnderTrans(a, b, c.parent); }
  }

  lemma UnderDepth(a: Path, b: Path)
    requires Under(a, b)
    ensures Depth(a) <= Depth(b)
    ensures Depth(a) == Depth(b) ==> a == b
  {
    if a != b { UnderDepth(a, b.parent); }
  }

  /** Two paths above the same path are ordered by their depths. */
  lemma UnderComparable(a: Path, b: Path, q: Path)
    requires Under(a, q) && Under(b, q) && Depth(a) <= Depth(b)
    ensures Under(a, b)
  {
    if b == q {
    } else if a == q {
      UnderDepth(b, q);
      assert false;
    } else {
      UnderComparable(a, b, q.parent);
    }
  }

  lemma ApartBelow(a: Path, b: Path, q: Path)
    requires Apart(a, b) && Under(a, q)
    ensures !Under(b, q)
  {
    if Under(b, q) {
      if Depth(a) <= Depth(b) { UnderComparable(a, b, q); } else { UnderComparable(b, a, q); }
    }
  }

  /** Siblings with different names have disjoint subtrees. */
  lemma SiblingsApart(p: Path, x: string, y: string)
    requires x != y
    ensures Apart(In(p, x), In(p, y))
  {
    if Under(In(p, x), In(p, y)) { UnderDepth(In(p, x), In(p, y)); }
    if Under(In(p, y), In(p, x)) { UnderDepth(In(p, y), In(p, x)); }
  }

  /** Whatever lies above an existing node is a directory. */
  ghost predicate WellFormed(t: Tree)
  {
    forall a, q :: q in t && Under(a, q) && a != q ==> a in t && t[a].Dir?
  }

  predicate Same(t: Tree, u: Tree, q: Path)
  {
    (q in t <==> q in u) && (q in t ==> t[q] == u[q])
  }

  predicate IsFile(t: Tree, p: Path)
  {
    p in t && t[p].File?
  }

  predicate IsEmptyDir(t: Tree, p: Path)
  {
    p in t && t[p].Dir? && forall q :: q in t && Under(p, q) ==> q == p
  }

  function Remove(t: Tree, p: Path): Tree
  {
    map q | q in t && !Under(p, q) :: t[q]
  }

  function Subtree(t: Tree, p: Path): Tree
  {
    map q | q in t && Under(p, q) :: t[q]
  }

  lemma RemoveWellFormed(t: Tree, p: Path)
    requires WellFormed(t)
    ensures WellFormed(Remove(t, p))
  {
    forall a, q | q in Remove(t, p) && Under(a, q) && a != q ensures a in Remove(t, p) {
      if Under(p, a) { UnderTrans(p, a, q); }
    }
  }

  /** `mkdir(parents=True, exist_ok=True)` on the directory above `p`. */
  function MakeParents(t: Tree, p: Path): (u: Tree)
    ensures forall q :: q in t ==> q in u && u[q] == t[q]
    ensures forall q :: q in u && q !in t ==> u[q] == Dir && Under(q, p) && q != p
    ensures forall q :: Under(q, p) && q != p ==> q in u
    decreases p
  {
    if p.Root? then t
    else
      var u := MakeParents(if p.parent in t then t else t[p.parent := Dir], p.parent);
      assert forall q :: Under(q, p.parent) ==> Under(q, p) && q != p by {
        forall q | Under(q, p.parent) ensures Under(q, p) && q != p { UnderDepth(q, p.parent); }
      }
      u
  }

  /** The place of `q`, which is at or under `p`, after `p` becomes `d`. */
  function Rebase(q: Path, p: Path, d: Path): (r: Path)
    requires Under(p, q)
    ensures Under(d, r)
    ensures Depth(r) + Depth(p) == Depth(q) + Depth(d)
    decreases q
  {
    if p == q then d
    else
      UnderDepth(p, q.parent);
      var r := Rebase(q.parent, p, d);
      UnderDepth(d, r);
      In(r, q.name)
  }

  lemma RebaseBack(q: Path, p: Path, d: Path)
    requires Under(p, q)
    ensures Rebase(Rebase(q, p, d), d, p) == q
    decreases q
  {
    if p != q {
      RebaseBack(q.parent, p, d);
      UnderDepth(p, q.parent);
      UnderDepth(d, Rebase(q, p, d));
    }
  }

  lemma RebaseKeepsOrder(a: Path, q: Path, p: Path, d: Path)
    requires Under(p, a) && Under(a, q) && Under(p, q)
    ensures Under(Rebase(a, p, d), Rebase(q, p, d))
    decreases q
  {
    if a != q {
      if p == q { UnderDepth(a, q); UnderDepth(p, a); assert false; }
      UnderTrans(p, a, q.parent);
      RebaseKeepsOrder(a, q.parent, p, d);
    }
  }

  /** The subtree at `p` renamed to `d`. */
  function MoveTree(t: Tree, p: Path, d: Path): Tree
  {
    var moved := set q | q in t && Under(p, q) :: Rebase(q, p, d);
    assert forall q :: q in moved ==> Under(d, q) && Rebase(q, d, p) in t by {
      forall r | r in t && Under(p, r) ensures Rebase(Rebase(r, p, d), d, p) == r { RebaseBack(r, p, d); }
    }
    map q | q in Remove(t, p).Keys + moved :: if q in moved then t[Rebase(q, d, p)] else t[q]
  }

  lemma MoveTreeAt(t: Tree, p: Path, d: Path, q: Path)
    requires Apart(p, d)
    ensures !Under(p, q) && !Under(d, q) ==> Same(t, MoveTree(t, p, d), q)
    ensures Under(p, q) ==> q !in MoveTree(t, p, d)
    ensures Under(d, q) && q !in t ==>
      (q in MoveTree(t, p, d) <==> Rebase(q, d, p) in t) &&
      (q in MoveTree(t, p, d) ==> MoveTree(t, p, d)[q] == t[Rebase(q, d, p)])
  {
    var u := MoveTree(t, p, d);
    forall r | r in t && Under(p, r) ensures Under(d, Rebase(r, p, d)) && Rebase(Rebase(r, p, d), d, p) == r {
      RebaseBack(r, p, d);
    }
    if Under(p, q) {
      if Under(d, q) { ApartBelow(p, d, q); }
    } else if Under(d, q) {
      RebaseBack(q, d, p);
    }
  }

  lemma MoveTreeWellFormed(t: Tree, p: Path, d: Path)
    requires WellFormed(t) && p in t && d !in t && Apart(p, d)
    requires p.In? && d.In? && p.parent == d.parent
    ensures WellFormed(MoveTree(t, p, d))
  {
    var u := MoveTree(t, p, d);
    forall a, q | q in u && Under(a, q) && a != q ensures a in u && u[a].Dir? {
      MoveTreeAt(t, p, d, q);
      MoveTreeAt(t, p, d, a);
      if Under(d, q) {
        var r := Rebase(q, d, p);
        assert r in t by { assert q !in t; }
        if Under(d, a) {
          RebaseKeepsOrder(a, q, d, p);
          RebaseBack(a, d, p);
          RebaseBack(q, d, p);
          assert a !in t;
        } else {
          if Depth(d) <= Depth(a) { UnderComparable(d, a, q); assert false; }
          UnderComparable(a, d, q);
          assert Under(a, d.parent) && Under(a, p);
          UnderDepth(a, d.parent);
          if Under(p, a) { UnderDepth(p, a); assert false; }
          assert Same(t, u, a) && p in t;
        }
      } else {
        assert !Under(p, q);
        if Under(d, a) { UnderTrans(d, a, q); assert false; }
        if Under(p, a) { UnderTrans(p, a, q); assert false; }
        assert Same(t, u, q) && Same(t, u, a);
      }
    }
  }
}
