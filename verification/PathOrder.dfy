/** The order in which `sorted` lists paths: component by component, and letter by letter within a component. */
module PathOrder {
  import opened FileTree

  predicate TextBefore(a: string, b: string)
  {
    if b == "" then false
    else if a == "" then true
    else if a[0] != b[0] then a[0] < b[0]
    else TextBefore(a[1..], b[1..])
  }

  predicate PartsBefore(a: seq<string>, b: seq<string>)
  {
    if b == [] then false
    else if a == [] then true
    else if a[0] != b[0] then TextBefore(a[0], b[0])
    else PartsBefore(a[1..], b[1..])
  }

  function Parts(p: Path): seq<string>
  {
    if p.Root? then [] else Parts(p.parent) + [p.name]
  }

  predicate Before(p: Path, q: Path)
  {
    PartsBefore(Parts(p), Parts(q))
  }

  lemma {:induction false} TextTotal(a: string, b: string)
    ensures a == b ==> !TextBefore(a, b)
    ensures a != b ==> (TextBefore(a, b) <==> !TextBefore(b, a))
  {
    if a != "" && b != "" && a[0] == b[0] {
      TextTotal(a[1..], b[1..]);
      assert a == [a[0]] + a[1..] && b == [b[0]] + b[1..];
    }
  }

  lemma {:induction false} TextTransitive(a: string, b: string, c: string)
    requires TextBefore(a, b) && TextBefore(b, c)
    ensures TextBefore(a, c)
  {
    if a != "" && a[0] == b[0] == c[0] { TextTransitive(a[1..], b[1..], c[1..]); }
  }

  lemma {:induction false} PartsTotal(a: seq<string>, b: seq<string>)
    ensures a == b ==> !PartsBefore(a, b)
    ensures a != b ==> (PartsBefore(a, b) <==> !PartsBefore(b, a))
  {
    if a != [] && b != [] {
      TextTotal(a[0], b[0]);
      PartsTotal(a[1..], b[1..]);
      assert a == [a[0]] + a[1..] && b == [b[0]] + b[1..];
    }
  }

  lemma {:induction false} PartsTransitive(a: seq<string>, b: seq<string>, c: seq<string>)
    requires PartsBefore(a, b) && PartsBefore(b, c)
    ensures PartsBefore(a, c)
  {
    if a != [] {
      if a[0] == b[0] == c[0] {
        PartsTransitive(a[1..], b[1..], c[1..]);
      } else if a[0] != b[0] && b[0] != c[0] {
        TextTransitive(a[0], b[0], c[0]);
        TextTotal(a[0], c[0]);
      }
    }
  }

  lemma {:induction false} PartsInjective(p: Path, q: Path)
    requires Parts(p) == Parts(q)
    ensures p == q
  {
    if p.In? {
      assert q.In?;
      var a, b := Parts(p.parent), Parts(q.parent);
      assert (a + [p.name])[..|a|] == a && (b + [q.name])[..|b|] == b;
      PartsInjective(p.parent, q.parent);
    }
  }

  lemma BeforeTotal(p: Path, q: Path)
    ensures p == q ==> !Before(p, q)
    ensures p != q ==> (Before(p, q) <==> !Before(q, p))
  {
    PartsTotal(Parts(p), Parts(q));
    if Parts(p) == Parts(q) { PartsInjective(p, q); }
  }

  /** The next path of a sorted list. */
  predicate IsFirst(p: Path, ps: set<Path>)
  {
    p in ps && forall q :: q in ps && q != p ==> Before(p, q)
  }

  lemma {:induction false} FirstExists(ps: set<Path>)
    requires ps != {}
    ensures exists p :: IsFirst(p, ps)
  {
    var p :| p in ps;
    if ps == {p} {
      assert IsFirst(p, ps);
    } else {
      FirstExists(ps - {p});
      var m :| IsFirst(m, ps - {p});
      BeforeTotal(p, m);
      if Before(p, m) {
        forall q | q in ps && q != p ensures Before(p, q) {
          if q != m { assert q in ps - {p} && Before(m, q); PartsTransitive(Parts(p), Parts(m), Parts(q)); }
        }
        assert IsFirst(p, ps);
      } else {
        assert IsFirst(m, ps);
      }
    }
  }

  lemma {:induction false} SharedParts(common: seq<string>, a: seq<string>, b: seq<string>)
    ensures PartsBefore(common + a, common + b) <==> PartsBefore(a, b)
  {
    if common == [] {
      assert [] + a == a && [] + b == b;
    } else {
      SharedParts(common[1..], a, b);
      assert (common + a)[1..] == common[1..] + a && (common + b)[1..] == common[1..] + b;
    }
  }

  /** The components of a path below `d` start with those of `d`. */
  lemma {:induction false} PartsBelow(d: Path, q: Path) returns (rest: seq<string>)
    requires Under(d, q)
    ensures Parts(q) == Parts(d) + rest
    decreases q
  {
    if d == q {
      rest := [];
    } else {
      rest := PartsBelow(d, q.parent);
      rest := rest + [q.name];
    }
  }

  /** In one directory, everything below the entry `x` is listed before the entry `y` exactly if `x` is. */
  lemma SiblingOrder(d: Path, x: string, y: string, q: Path)
    requires x != y && Under(In(d, x), q)
    ensures Before(q, In(d, y)) <==> TextBefore(x, y)
  {
    var rest := PartsBelow(In(d, x), q);
    assert Parts(q) == Parts(d) + ([x] + rest);
    SharedParts(Parts(d), [x] + rest, [y]);
  }
}
