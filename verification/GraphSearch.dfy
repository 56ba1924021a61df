/** The early-exit graph searches of the chat model: does a chat need AI, does it need updates? */
module GraphSearch {
  import opened Text
  import opened FlowGraph
  import Inspection = TaskInspection

  ghost predicate Matches(store: Store, p: Place, wanted: Item -> bool)
  {
    IsPlace(store, p) && wanted(store[p.graph][p.index].item)
  }

  /** Some node of a graph reachable through sub-graphs alone is wanted. */
  ghost predicate Found(store: Store, root: Id, wanted: Item -> bool)
  {
    exists p: Place :: Reaches(store, root, p.graph, false) && Matches(store, p, wanted)
  }

  ghost predicate Unmatched(store: Store, graphs: set<Id>, wanted: Item -> bool)
  {
    forall p: Place :: p.graph in graphs ==> !Matches(store, p, wanted)
  }

  /** A search that found nothing has looked at every graph it could newly reach. */
  ghost predicate Searched(store: Store, root: Id, wanted: Item -> bool, visited: set<Id>, seen: set<Id>)
  {
    && visited + {root} <= seen <= store.Keys
    && ClosedUnder(store, seen - visited, seen, false)
    && Unmatched(store, seen - visited, wanted)
  }

  lemma NothingFound(store: Store, root: Id, wanted: Item -> bool, seen: set<Id>)
    requires Searched(store, root, wanted, {}, seen)
    ensures !Found(store, root, wanted)
  {
    forall p: Place | Matches(store, p, wanted) ensures !Reaches(store, root, p.graph, false) {
      if Reaches(store, root, p.graph, false) {
        var path :| Path(store, path, false) && path[0] == root && path[|path| - 1] == p.graph;
        assert seen - {} == seen;
        StaysInside(store, seen, path, false);
        assert false;
      }
    }
  }

  /** A graph whose first `i` nodes are searched in vain. */
  ghost predicate SearchedUpTo(store: Store, root: Id, i: nat, wanted: Item -> bool, visited: set<Id>, seen: set<Id>)
    requires root in store && i <= |store[root]|
  {
    && root !in visited && visited + {root} <= seen <= store.Keys
    && ClosedUnder(store, seen - visited - {root}, seen, false)
    && Unmatched(store, seen - visited - {root}, wanted)
    && (forall j, t :: 0 <= j < i && Some(t) in Targets(store[root][j], false) ==> t in seen)
    && (forall j :: 0 <= j < i ==> !Matches(store, Place(root, j), wanted))
  }

  lemma SearchStep(store: Store, root: Id, i: nat, wanted: Item -> bool, visited: set<Id>, seen: set<Id>, below: Id,
                   reached: set<Id>)
    requires root in store && i < |store[root]| && store[root][i].Node? && store[root][i].subflow == Some(below)
    requires SearchedUpTo(store, root, i, wanted, visited, seen) && !Matches(store, Place(root, i), wanted)
    requires Searched(store, below, wanted, seen, reached)
    ensures SearchedUpTo(store, root, i + 1, wanted, visited, reached)
  {
    assert reached - visited - {root} == (seen - visited - {root}) + (reached - seen);
  }

  lemma SearchEnd(store: Store, root: Id, wanted: Item -> bool, visited: set<Id>, seen: set<Id>)
    requires root in store && SearchedUpTo(store, root, |store[root]|, wanted, visited, seen)
    ensures Searched(store, root, wanted, visited, seen)
  {
    forall h | Edge(store, root, h, false) ensures h in seen {
      var j :| 0 <= j < |store[root]| && Some(h) in Targets(store[root][j], false);
    }
    forall p: Place | p.graph in seen - visited ensures !Matches(store, p, wanted) {
      assert p.graph == root ==> p == Place(root, p.index);
    }
  }

  lemma FoundHere(store: Store, root: Id, i: nat, wanted: Item -> bool)
    requires root in store && i < |store[root]| && store[root][i].Node? && wanted(store[root][i].item)
    ensures Found(store, root, wanted)
  {
    ReachesSelf(store, root, false);
    assert Matches(store, Place(root, i), wanted);
  }

  lemma FoundBelow(store: Store, root: Id, i: nat, below: Id, wanted: Item -> bool)
    requires root in store && i < |store[root]| && store[root][i].Node? && store[root][i].subflow == Some(below)
    requires Found(store, below, wanted)
    ensures Found(store, root, wanted)
  {
    var p: Place :| Reaches(store, below, p.graph, false) && Matches(store, p, wanted);
    assert Some(below) in Targets(store[root][i], false);
    assert Edge(store, root, below, false);
    ReachesFurther(store, root, below, p.graph, false);
  }

  /** Depth-first search that stops at the first wanted node. */
  method Search(store: Store, root: Id, wanted: Item -> bool, visited: set<Id>) returns (found: bool, seen: set<Id>)
    requires Closed(store) && root in store && visited <= store.Keys
    ensures visited <= seen <= store.Keys
    ensures if found then Found(store, root, wanted) else Searched(store, root, wanted, visited, seen)
    decreases |store.Keys - visited|
  {
    seen := visited;
    if root in visited { return false, seen; }
    seen := seen + {root};
    SmallerSet(store.Keys - seen, store.Keys - visited);
    ghost var rest := |store.Keys - seen|;
    for i := 0 to |store[root]|
      invariant SearchedUpTo(store, root, i, wanted, visited, seen) && |store.Keys - seen| <= rest
    {
      var node := store[root][i];
      if node.NotDict? { continue; }
      if wanted(node.item) {
        FoundHere(store, root, i, wanted);
        return true, seen;
      }
      if node.subflow.Some? {
        assert Some(node.subflow.value) in Targets(node, true);
        var reached;
        found, reached := Search(store, node.subflow.value, wanted, seen);
        if found {
          FoundBelow(store, root, i, node.subflow.value, wanted);
          return true, reached;
        }
        SearchStep(store, root, i, wanted, visited, seen, node.subflow.value, reached);
        SmallerOrEqual(store.Keys - reached, store.Keys - seen);
        seen := reached;
      }
    }
    SearchEnd(store, root, wanted, visited, seen);
    return false, seen;
  }

  /** A fresh search answers exactly whether a reachable node is wanted. */
  method SearchFresh(store: Store, root: Id, wanted: Item -> bool) returns (found: bool)
    requires Closed(store) && root in store
    ensures found <==> Found(store, root, wanted)
  {
    var seen;
    found, seen := Search(store, root, wanted, {});
    if !found { NothingFound(store, root, wanted, seen); }
  }

  // ---------- a chat ----------

  datatype Step = Step(item: Item, subflow: Option<Id>)

  /** A chat is configured by exactly one of three sources. */
  datatype Chat = Steps(steps: seq<Step>) | Actions(actions: seq<Item>) | Graph(root: Id) | Unconfigured

  ghost predicate InStore(store: Store, chat: Chat)
  {
    match chat
    case Steps(steps) => forall i :: 0 <= i < |steps| && steps[i].subflow.Some? ==> steps[i].subflow.value in store
    case Graph(root) => root in store
    case _ => true
  }

  /** What steps, actions and nodes are wanted; the source tests each kind a little differently. */
  datatype Wanted = Wanted(step: Item -> bool, action: Item -> bool, node: Item -> bool)

  ghost predicate Requires(store: Store, chat: Chat, w: Wanted)
  {
    match chat
    case Steps(steps) =>
      exists i :: 0 <= i < |steps|
        && (w.step(steps[i].item) || (steps[i].subflow.Some? && Found(store, steps[i].subflow.value, w.node)))
    case Actions(actions) => exists i :: 0 <= i < |actions| && w.action(actions[i])
    case Graph(root) => Found(store, root, w.node)
    case Unconfigured => false
  }

  /** `requires_ai` and `requires_updates` for their two choices of what is wanted. */
  method ChatRequires(store: Store, chat: Chat, w: Wanted) returns (r: bool)
    requires Closed(store) && InStore(store, chat)
    ensures r <==> Requires(store, chat, w)
  {
    match chat
    case Steps(steps) =>
      for i := 0 to |steps|
        invariant forall j :: 0 <= j < i ==>
          !w.step(steps[j].item) && !(steps[j].subflow.Some? && Found(store, steps[j].subflow.value, w.node))
      {
        if w.step(steps[i].item) { return true; }
        if steps[i].subflow.Some? {
          r := SearchFresh(store, steps[i].subflow.value, w.node);
          if r { return; }
        }
      }
      return false;
    case Actions(actions) =>
      for i := 0 to |actions|
        invariant forall j :: 0 <= j < i ==> !w.action(actions[j])
      {
        if w.action(actions[i]) { return true; }
      }
      return false;
    case Graph(root) => r := SearchFresh(store, root, w.node);
    case Unconfigured => return false;
  }

  // ---------- the two answers to one question ----------

  lemma {:induction false} PathWithBranches(store: Store, p: seq<Id>)
    requires Path(store, p, false)
    ensures Path(store, p, true)
  {
    forall k | 0 <= k < |p| - 1 ensures Edge(store, p[k], p[k + 1], true) {
      assert Edge(store, p[k], p[k + 1], false);
      var i :| 0 <= i < |store[p[k]]| && Some(p[k + 1]) in Targets(store[p[k]][i], false);
      assert Some(p[k + 1]) in Targets(store[p[k]][i], true);
    }
  }

  lemma FlowRoot(root: Id)
    ensures Inspection.Roots([Inspection.Chat([], [], Some(root))]) == [Some(root)]
  {
    var chats := [Inspection.Chat([], [], Some(root))];
    assert Inspection.Roots(chats[..0]) == [];
    assert Inspection.ChatRoots(chats[0]) == [Some(root)];
  }

  lemma InspectsNode(store: Store, root: Id, p: Place, wanted: Item -> bool)
    requires Reaches(store, root, p.graph, true) && Matches(store, p, wanted)
    ensures Inspection.AnySource(store, [Inspection.Chat([], [], Some(root))], wanted)
  {
    var chats := [Inspection.Chat([], [], Some(root))];
    FlowRoot(root);
    var x := Inspection.FromNode(p);
    assert Some(root) in Inspection.Roots(chats);
    assert Inspection.IsSource(store, chats, x) && wanted(Inspection.ItemAt(store, chats, x));
  }

  /** What the search finds in a flow graph, the inspection of the same task finds too. */
  lemma SearchWithinInspection(store: Store, root: Id, wanted: Item -> bool)
    requires Found(store, root, wanted)
    ensures Inspection.AnySource(store, [Inspection.Chat([], [], Some(root))], wanted)
  {
    var p: Place :| Reaches(store, root, p.graph, false) && Matches(store, p, wanted);
    var path :| Path(store, path, false) && path[0] == root && path[|path| - 1] == p.graph;
    PathWithBranches(store, path);
    InspectsNode(store, root, p, wanted);
  }

  /** A graph whose only node has a branch to a second graph. */
  function Behind(plain: Item, special: Item): Store
  {
    map[0 := [Node(plain, None, [Some(1)])], 1 := [Node(special, None, [])]]
  }

  /**
   * The converse is false: a wanted node behind a branch is found by the inspection and missed by the search,
   * because the searches of the chat model do not follow branches.
   */
  lemma BranchesMissed(wanted: Item -> bool, plain: Item, special: Item)
    requires !wanted(plain) && wanted(special)
    ensures Closed(Behind(plain, special))
    ensures Inspection.AnySource(Behind(plain, special), [Inspection.Chat([], [], Some(0))], wanted)
    ensures !Found(Behind(plain, special), 0, wanted)
  {
    BehindInspected(wanted, plain, special);
    var store := Behind(plain, special);
    assert Searched(store, 0, wanted, {}, {0});
    NothingFound(store, 0, wanted, {0});
  }

  lemma BehindInspected(wanted: Item -> bool, plain: Item, special: Item)
    requires wanted(special)
    ensures Inspection.AnySource(Behind(plain, special), [Inspection.Chat([], [], Some(0))], wanted)
  {
    var store := Behind(plain, special);
    assert Some(1) in Targets(store[0][0], true);
    assert Edge(store, 0, 1, true) && Path(store, [0, 1], true);
    assert Reaches(store, 0, 1, true);
    InspectsNode(store, 0, Place(1, 0), wanted);
  }

  /** Every branch of a graph that the search reaches leads to a graph that it reaches through sub-graphs anyway. */
  ghost predicate BranchesCovered(store: Store, root: Id)
  {
    forall g, t :: Reaches(store, root, g, false) && Edge(store, g, t, true) ==> Reaches(store, root, t, false)
  }

  lemma {:induction false} CoveredPath(store: Store, root: Id, p: seq<Id>)
    requires BranchesCovered(store, root) && Path(store, p, true) && p[0] == root
    ensures Reaches(store, root, p[|p| - 1], false)
    decreases |p|
  {
    if |p| == 1 {
      ReachesSelf(store, root, false);
    } else {
      var q := p[..|p| - 1];
      forall k | 0 <= k < |q| - 1 ensures Edge(store, q[k], q[k + 1], true) {
        assert Edge(store, p[k], p[k + 1], true);
      }
      CoveredPath(store, root, q);
      assert Edge(store, p[|p| - 2], p[|p| - 2 + 1], true);
    }
  }

  /** Search and inspection reach the same graphs exactly if every branch is covered by sub-graphs. */
  lemma SearchReachesAllExactly(store: Store, root: Id)
    ensures (forall g :: Reaches(store, root, g, true) <==> Reaches(store, root, g, false))
      <==> BranchesCovered(store, root)
  {
    if BranchesCovered(store, root) {
      forall g ensures Reaches(store, root, g, true) <==> Reaches(store, root, g, false) {
        if Reaches(store, root, g, true) {
          var p :| Path(store, p, true) && p[0] == root && p[|p| - 1] == g;
          CoveredPath(store, root, p);
        } else if Reaches(store, root, g, false) {
          var p :| Path(store, p, false) && p[0] == root && p[|p| - 1] == g;
          PathWithBranches(store, p);
          assert false;
        }
      }
    }
    if forall g :: Reaches(store, root, g, true) <==> Reaches(store, root, g, false) {
      forall g, t | Reaches(store, root, g, false) && Edge(store, g, t, true) ensures Reaches(store, root, t, false) {
        var p :| Path(store, p, true) && p[0] == root && p[|p| - 1] == g;
        ReachesLast(store, p, t);
      }
    }
  }

  lemma ReachesLast(store: Store, p: seq<Id>, t: Id)
    requires Path(store, p, true) && Edge(store, p[|p| - 1], t, true)
    ensures Reaches(store, p[0], t, true)
  {
    var q := p + [t];
    forall k | 0 <= k < |q| - 1 ensures Edge(store, q[k], q[k + 1], true) {
      assert k < |p| - 1 ==> Edge(store, p[k], p[k + 1], true);
    }
    assert Path(store, q, true);
  }

  lemma InspectedNode(store: Store, root: Id, x: Inspection.Source)
    requires Inspection.IsSource(store, [Inspection.Chat([], [], Some(root))], x)
    ensures x.FromNode? && IsPlace(store, x.place) && Reaches(store, root, x.place.graph, true)
  {
    assert Inspection.Roots([Inspection.Chat([], [], Some(root))]) == [Some(root)];
  }

  /** A graph that the search reaches has a node with this item. */
  ghost predicate FoundItem(store: Store, root: Id, x: Item)
  {
    exists p: Place :: IsPlace(store, p) && Reaches(store, root, p.graph, false) && store[p.graph][p.index].item == x
  }

  /** Every item the inspection comes to, the search comes to as well, be it at another node. */
  ghost predicate ItemsCovered(store: Store, root: Id)
  {
    forall p: Place :: IsPlace(store, p) && Reaches(store, root, p.graph, true) ==>
      FoundItem(store, root, store[p.graph][p.index].item)
  }

  ghost predicate Agree(store: Store, root: Id, wanted: Item -> bool)
  {
    Inspection.AnySource(store, [Inspection.Chat([], [], Some(root))], wanted) <==> Found(store, root, wanted)
  }

  lemma CoveredAgree(store: Store, root: Id, wanted: Item -> bool)
    requires ItemsCovered(store, root)
    ensures Agree(store, root, wanted)
  {
    var chats := [Inspection.Chat([], [], Some(root))];
    if Found(store, root, wanted) {
      SearchWithinInspection(store, root, wanted);
    } else {
      forall x | Inspection.IsSource(store, chats, x) ensures !wanted(Inspection.ItemAt(store, chats, x)) {
        InspectedNode(store, root, x);
        var q: Place :| IsPlace(store, q) && Reaches(store, root, q.graph, false)
          && store[q.graph][q.index].item == store[x.place.graph][x.place.index].item;
        assert !Matches(store, q, wanted);
      }
    }
  }

  lemma UncoveredDisagree(store: Store, root: Id, p: Place)
    requires IsPlace(store, p) && Reaches(store, root, p.graph, true)
    requires !FoundItem(store, root, store[p.graph][p.index].item)
    ensures !Agree(store, root, x => x == store[p.graph][p.index].item)
  {
    var wanted := x => x == store[p.graph][p.index].item;
    InspectsNode(store, root, p, wanted);
    assert !Found(store, root, wanted);
  }

  /** Search and inspection give the same answer, whatever is wanted, exactly if the search comes to every item. */
  lemma AnswersAgreeExactly(store: Store, root: Id)
    ensures (forall wanted: Item -> bool :: Agree(store, root, wanted)) <==> ItemsCovered(store, root)
  {
    if ItemsCovered(store, root) {
      forall wanted: Item -> bool ensures Agree(store, root, wanted) { CoveredAgree(store, root, wanted); }
    } else {
      var p: Place :| IsPlace(store, p) && Reaches(store, root, p.graph, true)
        && !FoundItem(store, root, store[p.graph][p.index].item);
      UncoveredDisagree(store, root, p);
    }
  }

  /** Covered branches are enough for that. */
  lemma SearchAgreesIfCovered(store: Store, root: Id, wanted: Item -> bool)
    requires BranchesCovered(store, root)
    ensures Agree(store, root, wanted)
  {
    SearchReachesAllExactly(store, root);
    CoveredAgree(store, root, wanted);
  }
}
