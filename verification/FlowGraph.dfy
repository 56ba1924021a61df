/** Execution graphs as shared, possibly cyclic dictionaries, and their traversals with a visited set. */
module FlowGraph {
  import opened Text

  /** The identity of a graph dictionary. */
  type Id = nat

  /** A value under "action" or "action_type": the number it stands for, if any. */
  datatype Field = Absent | Value(number: Option<int>)

  /** What is looked at in one action, step or node. */
  datatype Item = Item(nodeType: string, waits: bool, action: Field, actionType: Field, mode: string)

  /** An entry of a node list; None marks a sub-graph or branch that is no dictionary. */
  datatype Node = NotDict | Node(item: Item, subflow: Option<Id>, branches: seq<Option<Id>>)

  /** The node lists of all graphs; anything that is neither a list nor a dictionary of nodes counts as empty. */
  type Store = map<Id, seq<Node>>

  /** The sub-graphs of a node in the order they are visited; the searches of the task model leave the branches out. */
  function Targets(node: Node, branching: bool): seq<Option<Id>>
  {
    if node.NotDict? then [] else [node.subflow] + (if branching then node.branches else [])
  }

  ghost predicate Closed(store: Store)
  {
    forall g, i, t :: g in store && 0 <= i < |store[g]| && Some(t) in Targets(store[g][i], true) ==> t in store
  }

  // ---------- reachability ----------

  ghost predicate Edge(store: Store, g: Id, h: Id, branching: bool)
  {
    g in store && exists i :: 0 <= i < |store[g]| && Some(h) in Targets(store[g][i], branching)
  }

  ghost predicate Path(store: Store, p: seq<Id>, branching: bool)
  {
    p != [] && forall k :: 0 <= k < |p| - 1 ==> Edge(store, p[k], p[k + 1], branching)
  }

  ghost predicate Reaches(store: Store, g: Id, h: Id, branching: bool)
  {
    exists p :: Path(store, p, branching) && p[0] == g && p[|p| - 1] == h
  }

  lemma ReachesSelf(store: Store, g: Id, branching: bool)
    ensures Reaches(store, g, g, branching)
  {
    assert Path(store, [g], branching);
  }

  lemma ReachesFurther(store: Store, g: Id, h: Id, k: Id, branching: bool)
    requires Edge(store, g, h, branching) && Reaches(store, h, k, branching)
    ensures Reaches(store, g, k, branching)
  {
    var p :| Path(store, p, branching) && p[0] == h && p[|p| - 1] == k;
    assert Path(store, [g] + p, branching);
  }

  ghost predicate ClosedUnder(store: Store, graphs: set<Id>, seen: set<Id>, branching: bool)
  {
    forall g, h :: g in graphs && Edge(store, g, h, branching) ==> h in seen
  }

  lemma {:induction false} StaysInside(store: Store, inside: set<Id>, p: seq<Id>, branching: bool)
    requires ClosedUnder(store, inside, inside, branching) && Path(store, p, branching) && p[0] in inside
    ensures p[|p| - 1] in inside
    decreases |p|
  {
    if |p| > 1 {
      assert Edge(store, p[0], p[1], branching);
      forall k | 0 <= k < |p| - 2 ensures Edge(store, p[1..][k], p[1..][k + 1], branching) {
        assert Edge(store, p[k + 1], p[k + 2], branching);
      }
      StaysInside(store, inside, p[1..], branching);
    }
  }

  /** A graph that some listed target reaches. */
  ghost predicate FromTargets(store: Store, targets: seq<Option<Id>>, g: Id, branching: bool)
  {
    exists t :: Some(t) in targets && Reaches(store, t, g, branching)
  }

  /** A set that is closed, holds the targets and holds nothing unreachable is exactly the reachable set. */
  lemma ReachableSet(store: Store, targets: seq<Option<Id>>, seen: set<Id>, branching: bool)
    requires ClosedUnder(store, seen, seen, branching)
    requires forall t :: Some(t) in targets ==> t in seen
    requires forall g :: g in seen ==> FromTargets(store, targets, g, branching)
    ensures forall g :: g in seen <==> FromTargets(store, targets, g, branching)
  {
    forall g | FromTargets(store, targets, g, branching) ensures g in seen {
      var t :| Some(t) in targets && Reaches(store, t, g, branching);
      var p :| Path(store, p, branching) && p[0] == t && p[|p| - 1] == g;
      StaysInside(store, seen, p, branching);
    }
  }

  // ---------- the traversal ----------

  /** A node by its graph and its position there. */
  datatype Place = Place(graph: Id, index: nat)

  ghost predicate IsPlace(store: Store, x: Place)
  {
    x.graph in store && x.index < |store[x.graph]| && store[x.graph][x.index].Node?
  }

  /** Every dictionary node of the given graphs exactly once, the nodes of one graph in their order. */
  ghost predicate Lists(store: Store, items: seq<Place>, graphs: set<Id>)
  {
    && (forall x: Place :: x in items <==> IsPlace(store, x) && x.graph in graphs)
    && InOrder(items)
  }

  ghost predicate InOrder(items: seq<Place>)
  {
    forall p, q :: 0 <= p < q < |items| && items[p].graph == items[q].graph ==> items[p].index < items[q].index
  }

  lemma ListsBoth(store: Store, a: seq<Place>, b: seq<Place>, these: set<Id>, those: set<Id>)
    requires Lists(store, a, these) && Lists(store, b, those) && these !! those
    ensures Lists(store, a + b, these + those)
  {
    forall p, q | 0 <= p < q < |a + b| && (a + b)[p].graph == (a + b)[q].graph
      ensures (a + b)[p].index < (a + b)[q].index
    {
      assert p < |a| ==> a[p] in a;
      assert q >= |a| ==> b[q - |a|] in b;
    }
  }

  /** What one traversal adds: the graphs reachable from the targets that were not visited before, and their nodes. */
  ghost predicate Traversed(store: Store, targets: seq<Option<Id>>, visited: set<Id>, items: seq<Place>, seen: set<Id>)
  {
    && visited <= seen <= store.Keys
    && (forall t :: Some(t) in targets ==> t in seen)
    && ClosedUnder(store, seen - visited, seen, true)
    && (forall g :: g in seen - visited ==> FromTargets(store, targets, g, true))
    && Lists(store, items, seen - visited)
  }

  /** A graph whose first `i` nodes are done. */
  ghost predicate Expanding(store: Store, root: Id, i: nat, visited: set<Id>, items: seq<Place>, seen: set<Id>)
    requires root in store && i <= |store[root]|
  {
    && root !in visited && visited + {root} <= seen <= store.Keys
    && ClosedUnder(store, seen - visited - {root}, seen, true)
    && (forall j, t :: 0 <= j < i && Some(t) in Targets(store[root][j], true) ==> t in seen)
    && (forall g :: g in seen - visited ==> Reaches(store, root, g, true))
    && ListsUpTo(store, items, seen - visited - {root}, root, i)
  }

  lemma BelowReached(store: Store, root: Id, i: nat, g: Id)
    requires root in store && i < |store[root]| && FromTargets(store, Targets(store[root][i], true), g, true)
    ensures Reaches(store, root, g, true)
  {
    var t :| Some(t) in Targets(store[root][i], true) && Reaches(store, t, g, true);
    assert Edge(store, root, t, true);
    ReachesFurther(store, root, t, g, true);
  }

  lemma ClosedBoth(store: Store, these: set<Id>, seen: set<Id>, those: set<Id>, reached: set<Id>)
    requires ClosedUnder(store, these, seen, true) && ClosedUnder(store, those, reached, true) && seen <= reached
    ensures ClosedUnder(store, these + those, reached, true)
  {
  }

  lemma ExpandStart(store: Store, root: Id, visited: set<Id>)
    requires root in store && root !in visited && visited <= store.Keys
    ensures Expanding(store, root, 0, visited, [], visited + {root})
  {
    ReachesSelf(store, root, true);
  }

  lemma ExpandStep(store: Store, root: Id, i: nat, visited: set<Id>, items: seq<Place>, seen: set<Id>,
                   below: seq<Place>, reached: set<Id>)
    requires root in store && i < |store[root]| && store[root][i].Node?
    requires Expanding(store, root, i, visited, items, seen)
    requires Traversed(store, Targets(store[root][i], true), seen, below, reached)
    ensures Expanding(store, root, i + 1, visited, items + [Place(root, i)] + below, reached)
  {
    forall g | g in reached - seen ensures Reaches(store, root, g, true) {
      BelowReached(store, root, i, g);
    }
    ClosedBoth(store, seen - visited - {root}, seen, reached - seen, reached);
    ListsMore(store, items, below, seen - visited - {root}, reached - seen, root, i);
    assert (seen - visited - {root}) + (reached - seen) == reached - visited - {root};
  }

  lemma ExpandedAll(store: Store, root: Id, visited: set<Id>, items: seq<Place>, seen: set<Id>)
    requires root in store && Expanding(store, root, |store[root]|, visited, items, seen)
    ensures Traversed(store, [Some(root)], visited, items, seen)
  {
    forall h | Edge(store, root, h, true) ensures h in seen {
      var j :| 0 <= j < |store[root]| && Some(h) in Targets(store[root][j], true);
    }
    forall g | g in seen - visited ensures FromTargets(store, [Some(root)], g, true) {
      assert Some(root) in [Some(root)] && Reaches(store, root, g, true);
    }
    forall x: Place ensures x in items <==> IsPlace(store, x) && x.graph in seen - visited {
    }
  }

  /** Depth-first traversal of one graph; the visited set is shared by all traversals of a task. */
  method IterGraph(store: Store, root: Id, visited: set<Id>) returns (items: seq<Place>, seen: set<Id>)
    requires Closed(store) && root in store && visited <= store.Keys
    ensures Traversed(store, [Some(root)], visited, items, seen)
    decreases |store.Keys - visited|, 0
  {
    items, seen := [], visited;
    if root in visited { return; }
    seen := seen + {root};
    ExpandStart(store, root, visited);
    SmallerSet(store.Keys - seen, store.Keys - visited);
    ghost var rest := |store.Keys - seen|;
    for i := 0 to |store[root]|
      invariant Expanding(store, root, i, visited, items, seen) && |store.Keys - seen| <= rest
    {
      if store[root][i].NotDict? { continue; }
      var below, reached := IterTargets(store, Targets(store[root][i], true), seen);
      ExpandStep(store, root, i, visited, items, seen, below, reached);
      SmallerOrEqual(store.Keys - reached, store.Keys - seen);
      items, seen := items + [Place(root, i)] + below, reached;
    }
    ExpandedAll(store, root, visited, items, seen);
  }

  /** Two traversals in a row, sharing the visited set, are one traversal of all their targets. */
  lemma TraversedBoth(store: Store, a: seq<Option<Id>>, b: seq<Option<Id>>, visited: set<Id>, items: seq<Place>,
                      seen: set<Id>, more: seq<Place>, reached: set<Id>)
    requires Traversed(store, a, visited, items, seen) && Traversed(store, b, seen, more, reached)
    ensures Traversed(store, a + b, visited, items + more, reached)
  {
    ListsBoth(store, items, more, seen - visited, reached - seen);
    ClosedBoth(store, seen - visited, seen, reached - seen, reached);
    assert (seen - visited) + (reached - seen) == reached - visited;
    forall g | g in reached - visited ensures FromTargets(store, a + b, g, true) {
      FromEither(store, a, b, g, g in seen);
    }
  }

  lemma FromEither(store: Store, a: seq<Option<Id>>, b: seq<Option<Id>>, g: Id, left: bool)
    requires FromTargets(store, if left then a else b, g, true)
    ensures FromTargets(store, a + b, g, true)
  {
    var t :| Some(t) in (if left then a else b) && Reaches(store, t, g, true);
    assert Some(t) in a + b;
  }

  /** The sub-graph and the branches of one node, in turn. */
  method IterTargets(store: Store, targets: seq<Option<Id>>, visited: set<Id>)
    returns (items: seq<Place>, seen: set<Id>)
    requires Closed(store) && visited <= store.Keys
    requires forall t :: Some(t) in targets ==> t in store
    ensures Traversed(store, targets, visited, items, seen)
    decreases |store.Keys - visited|, 1
  {
    items, seen := [], visited;
    for i := 0 to |targets|
      invariant Traversed(store, targets[..i], visited, items, seen)
    {
      assert targets[..i + 1] == targets[..i] + [targets[i]];
      if targets[i].Some? {
        assert Some(targets[i].value) in targets;
        SmallerOrEqual(store.Keys - seen, store.Keys - visited);
        var more, reached := IterGraph(store, targets[i].value, seen);
        TraversedBoth(store, targets[..i], [targets[i]], visited, items, seen, more, reached);
        items, seen := items + more, reached;
      } else {
        TraversedBoth(store, targets[..i], [targets[i]], visited, items, seen, [], seen);
        assert items + [] == items;
      }
    }
    assert targets[..|targets|] == targets;
  }

  ghost predicate ListsUpTo(store: Store, items: seq<Place>, graphs: set<Id>, root: Id, i: nat)
  {
    && (forall x: Place :: x in items <==> IsPlace(store, x) && (x.graph in graphs || (x.graph == root && x.index < i)))
    && InOrder(items)
  }

  lemma ListsMore(store: Store, items: seq<Place>, below: seq<Place>, graphs: set<Id>, more: set<Id>, root: Id, i: nat)
    requires ListsUpTo(store, items, graphs, root, i) && Lists(store, below, more) && IsPlace(store, Place(root, i))
    requires graphs !! more && root !in graphs && root !in more
    ensures ListsUpTo(store, items + [Place(root, i)] + below, graphs + more, root, i + 1)
  {
    var all := items + [Place(root, i)] + below;
    forall p, q | 0 <= p < q < |all| && all[p].graph == all[q].graph ensures all[p].index < all[q].index {
      assert p < |items| ==> all[p] == items[p] && items[p] in items;
      assert q > |items| ==> all[q] == below[q - |items| - 1] && below[q - |items| - 1] in below;
      assert p > |items| ==> all[p] == below[p - |items| - 1];
    }
    forall x: Place
      ensures x in all <==> IsPlace(store, x) && (x.graph in graphs + more || (x.graph == root && x.index < i + 1))
    {
      assert x in all <==> x in items || x == Place(root, i) || x in below;
    }
  }

  lemma SmallerSet<T>(a: set<T>, b: set<T>)
    requires a < b
    ensures |a| < |b|
  {
    SmallerOrEqual(a, b);
    var x :| x in b && x !in a;
    SmallerOrEqual(a, b - {x});
  }

  lemma {:induction false} SmallerOrEqual<T>(a: set<T>, b: set<T>)
    requires a <= b
    ensures |a| <= |b|
  {
    if a != {} {
      var x :| x in a;
      SmallerOrEqual(a - {x}, b - {x});
    }
  }
}
