/** Which tasks need update handlers or a keyword monitor: every action, step and reachable graph node is looked at. */
module TaskInspection {
  import opened Text
  import opened Filtering
  import opened FlowGraph

  /** A workflow step; its configuration supplies only the mode. */
  datatype Step = BadStep | Step(nodeType: string, actionType: Field, mode: string, subflow: Option<Id>,
                                 branches: seq<Option<Id>>)

  /** None marks an action that is no dictionary. */
  datatype Chat = BadChat | Chat(actions: seq<Option<Item>>, steps: seq<Step>, flowGraph: Option<Id>)

  /**
   * A configuration whose chats are a list or a tuple; anything else is `BadConfig` or has no chats and `isList`
   * false.
   */
  datatype Config = BadConfig | Config(isList: bool, chats: seq<Chat>)

  /** Where an inspected item comes from. */
  datatype Source = FromAction(chat: nat, index: nat) | FromStep(chat: nat, index: nat) | FromNode(place: Place)

  function StepTargets(s: Step): seq<Option<Id>>
  {
    if s.BadStep? then [] else [s.subflow] + s.branches
  }

  function StepRoots(steps: seq<Step>): seq<Option<Id>>
  {
    if steps == [] then [] else StepRoots(steps[..|steps| - 1]) + StepTargets(steps[|steps| - 1])
  }

  function ChatRoots(chat: Chat): seq<Option<Id>>
  {
    if chat.BadChat? then [] else StepRoots(chat.steps) + [chat.flowGraph]
  }

  /** The graphs a task names directly. */
  function Roots(chats: seq<Chat>): seq<Option<Id>>
  {
    if chats == [] then [] else Roots(chats[..|chats| - 1]) + ChatRoots(chats[|chats| - 1])
  }

  function StepItem(s: Step): Item
    requires s.Step?
  {
    Item(s.nodeType, false, if s.actionType.Absent? then Value(None) else s.actionType, Absent, s.mode)
  }

  predicate HasItem(store: Store, chats: seq<Chat>, x: Source)
  {
    match x
    case FromAction(c, i) => c < |chats| && chats[c].Chat? && i < |chats[c].actions| && chats[c].actions[i].Some?
    case FromStep(c, i) => c < |chats| && chats[c].Chat? && i < |chats[c].steps| && chats[c].steps[i].Step?
    case FromNode(p) => p.graph in store && p.index < |store[p.graph]| && store[p.graph][p.index].Node?
  }

  function ItemAt(store: Store, chats: seq<Chat>, x: Source): Item
    requires HasItem(store, chats, x)
  {
    match x
    case FromAction(c, i) => chats[c].actions[i].value
    case FromStep(c, i) => StepItem(chats[c].steps[i])
    case FromNode(p) => store[p.graph][p.index].item
  }

  /** All actions and steps of a task, and all nodes of the graphs they and the chats reach. */
  ghost predicate IsSource(store: Store, chats: seq<Chat>, x: Source)
  {
    HasItem(store, chats, x) && (x.FromNode? ==> FromTargets(store, Roots(chats), x.place.graph, true))
  }

  // ---------- the traversal of a task ----------

  /** All chats before `n`, and `a` actions and `s` steps of chat `n`. */
  ghost predicate Passed(chats: seq<Chat>, n: nat, a: nat, s: nat, x: Source)
  {
    && !x.FromNode? && x.chat < |chats| && chats[x.chat].Chat? && (x.chat < n || x.chat == n)
    && (x.FromAction? ==>
      x.index < |chats[x.chat].actions| && chats[x.chat].actions[x.index].Some? && (x.chat == n ==> x.index < a))
    && (x.FromStep? ==>
      x.index < |chats[x.chat].steps| && chats[x.chat].steps[x.index].Step? && (x.chat == n ==> x.index < s))
  }

  ghost predicate Gathered(store: Store, chats: seq<Chat>, n: nat, a: nat, s: nat, items: seq<Source>,
                           roots: seq<Option<Id>>, nodes: seq<Place>, seen: set<Id>)
  {
    && Distinct(items)
    && (forall x :: x in items <==> Passed(chats, n, a, s, x) || (x.FromNode? && x.place in nodes))
    && Traversed(store, roots, {}, nodes, seen)
  }

  function Wrapped(places: seq<Place>): seq<Source>
  {
    seq(|places|, i requires 0 <= i < |places| => FromNode(places[i]))
  }

  lemma WrappedNodes(places: seq<Place>)
    requires InOrder(places)
    ensures Distinct(Wrapped(places))
    ensures forall x: Source :: x in Wrapped(places) <==> x.FromNode? && x.place in places
  {
    forall x: Source | x.FromNode? && x.place in places ensures x in Wrapped(places) {
      var i :| 0 <= i < |places| && places[i] == x.place;
      assert Wrapped(places)[i] == x;
    }
  }

  lemma DistinctBoth<T>(a: seq<T>, b: seq<T>)
    requires Distinct(a) && Distinct(b) && forall x :: x in a ==> x !in b
    ensures Distinct(a + b)
  {
    forall i, j | 0 <= i < j < |a + b| ensures (a + b)[i] != (a + b)[j] {
      assert i < |a| ==> a[i] in a;
      assert j >= |a| ==> b[j - |a|] in b;
    }
  }

  lemma GatherItem(store: Store, chats: seq<Chat>, n: nat, a: nat, s: nat, a2: nat, s2: nat, items: seq<Source>,
                   x: Source,
                   roots: seq<Option<Id>>, nodes: seq<Place>, seen: set<Id>)
    requires Gathered(store, chats, n, a, s, items, roots, nodes, seen)
    requires n < |chats| && chats[n].Chat?
    requires (x == FromAction(n, a) && a2 == a + 1 && s2 == s && a < |chats[n].actions| && chats[n].actions[a].Some?)
          || (x == FromStep(n, s) && a2 == a && s2 == s + 1 && s < |chats[n].steps| && chats[n].steps[s].Step?)
    ensures Gathered(store, chats, n, a2, s2, items + [x], roots, nodes, seen)
  {
    DistinctBoth(items, [x]);
  }

  lemma GatherNodes(store: Store, chats: seq<Chat>, n: nat, a: nat, s: nat, items: seq<Source>, roots: seq<Option<Id>>,
                    nodes: seq<Place>, seen: set<Id>,
                    targets: seq<Option<Id>>, below: seq<Place>, reached: set<Id>)
    requires Gathered(store, chats, n, a, s, items, roots, nodes, seen)
    requires Traversed(store, targets, seen, below, reached)
    ensures Gathered(store, chats, n, a, s, items + Wrapped(below), roots + targets, nodes + below, reached)
  {
    TraversedBoth(store, roots, targets, {}, nodes, seen, below, reached);
    WrappedNodes(below);
    DistinctBoth(items, Wrapped(below));
  }

  /** Every action, step and reachable graph node of a task, exactly once; the visited set is shared by all chats. */
  method IterChatActions(store: Store, chats: seq<Chat>) returns (items: seq<Source>)
    requires Closed(store) && forall t :: Some(t) in Roots(chats) ==> t in store
    ensures forall x :: x in items <==> IsSource(store, chats, x)
    ensures Distinct(items)
  {
    items := [];
    var visited: set<Id> := {};
    ghost var nodes: seq<Place> := [];
    for n := 0 to |chats|
      invariant Gathered(store, chats, n, 0, 0, items, Roots(chats[..n]), nodes, visited)
    {
      if chats[n].BadChat? {
        SkipChat(store, chats, n, items, nodes, visited);
      } else {
        items, visited, nodes := IterChat(store, chats, n, items, visited, nodes);
      }
    }
    GatheredAll(store, chats, items, nodes, visited);
  }

  lemma SkipChat(store: Store, chats: seq<Chat>, n: nat, items: seq<Source>, nodes: seq<Place>, seen: set<Id>)
    requires n < |chats| && chats[n].BadChat? && Gathered(store, chats, n, 0, 0, items, Roots(chats[..n]), nodes, seen)
    ensures Gathered(store, chats, n + 1, 0, 0, items, Roots(chats[..n + 1]), nodes, seen)
  {
    RootsStep(chats, n);
    assert Roots(chats[..n]) + [] == Roots(chats[..n]);
  }

  lemma GatheredAll(store: Store, chats: seq<Chat>, items: seq<Source>, nodes: seq<Place>, seen: set<Id>)
    requires Gathered(store, chats, |chats|, 0, 0, items, Roots(chats[..|chats|]), nodes, seen)
    ensures Distinct(items) && forall x :: x in items <==> IsSource(store, chats, x)
  {
    assert chats[..|chats|] == chats;
    assert seen - {} == seen;
    ReachableSet(store, Roots(chats), seen, true);
  }

  lemma RootsStep(chats: seq<Chat>, n: nat)
    requires n < |chats|
    ensures Roots(chats[..n + 1]) == Roots(chats[..n]) + ChatRoots(chats[n])
  {
    assert chats[..n + 1][..n] == chats[..n];
  }

  lemma {:induction false} RootsWithin(chats: seq<Chat>, n: nat)
    requires n < |chats|
    ensures forall t :: Some(t) in ChatRoots(chats[n]) ==> Some(t) in Roots(chats)
  {
    if n < |chats| - 1 { RootsWithin(chats[..|chats| - 1], n); }
  }

  lemma {:induction false} StepWithin(steps: seq<Step>, i: nat)
    requires i < |steps|
    ensures forall t :: Some(t) in StepTargets(steps[i]) ==> Some(t) in StepRoots(steps)
  {
    if i < |steps| - 1 { StepWithin(steps[..|steps| - 1], i); }
  }

  lemma GatherStep(store: Store, chats: seq<Chat>, n: nat, s: nat, items: seq<Source>, roots: seq<Option<Id>>,
                   nodes: seq<Place>, seen: set<Id>,
                   below: seq<Place>, reached: set<Id>)
    requires n < |chats| && chats[n].Chat? && s < |chats[n].steps| && chats[n].steps[s].Step?
    requires Gathered(store, chats, n, |chats[n].actions|, s, items, roots + StepRoots(chats[n].steps[..s]), nodes,
      seen)
    requires Traversed(store, StepTargets(chats[n].steps[s]), seen, below, reached)
    ensures Gathered(store, chats, n, |chats[n].actions|, s + 1, items + [FromStep(n, s)] + Wrapped(below),
      roots + StepRoots(chats[n].steps[..s + 1]), nodes + below, reached)
  {
    var a, steps := |chats[n].actions|, chats[n].steps;
    var done := roots + StepRoots(steps[..s]);
    GatherItem(store, chats, n, a, s, a, s + 1, items, FromStep(n, s), done, nodes, seen);
    GatherNodes(store, chats, n, a, s + 1, items + [FromStep(n, s)], done, nodes, seen, StepTargets(steps[s]), below,
      reached);
    StepRootsGrow(roots, steps, s);
  }

  lemma StepRootsGrow(roots: seq<Option<Id>>, steps: seq<Step>, s: nat)
    requires s < |steps|
    ensures roots + StepRoots(steps[..s]) + StepTargets(steps[s]) == roots + StepRoots(steps[..s + 1])
  {
    assert steps[..s + 1][..s] == steps[..s];
  }

  lemma SkipStep(chats: seq<Chat>, n: nat, s: nat, roots: seq<Option<Id>>)
    requires n < |chats| && chats[n].Chat? && s < |chats[n].steps| && chats[n].steps[s].BadStep?
    ensures roots + StepRoots(chats[n].steps[..s + 1]) == roots + StepRoots(chats[n].steps[..s])
    ensures forall x :: Passed(chats, n, |chats[n].actions|, s + 1, x) <==> Passed(chats, n, |chats[n].actions|, s, x)
  {
    assert chats[n].steps[..s + 1][..s] == chats[n].steps[..s];
  }

  lemma GatherFlow(store: Store, chats: seq<Chat>, n: nat, items: seq<Source>, nodes: seq<Place>, seen: set<Id>,
                   below: seq<Place>, reached: set<Id>)
    requires n < |chats| && chats[n].Chat?
    requires Gathered(store, chats, n, |chats[n].actions|, |chats[n].steps|, items,
      Roots(chats[..n]) + StepRoots(chats[n].steps), nodes, seen)
    requires Traversed(store, [chats[n].flowGraph], seen, below, reached)
    ensures Gathered(store, chats, n + 1, 0, 0, items + Wrapped(below), Roots(chats[..n + 1]), nodes + below, reached)
  {
    var a, s := |chats[n].actions|, |chats[n].steps|;
    var done := Roots(chats[..n]) + StepRoots(chats[n].steps);
    GatherNodes(store, chats, n, a, s, items, done, nodes, seen, [chats[n].flowGraph], below, reached);
    RootsStep(chats, n);
    assert done + [chats[n].flowGraph] == Roots(chats[..n + 1]);
    assert forall x :: Passed(chats, n + 1, 0, 0, x) <==> Passed(chats, n, a, s, x);
  }

  method IterChat(store: Store, chats: seq<Chat>, n: nat, before: seq<Source>, visited: set<Id>,
                  ghost nodesBefore: seq<Place>)
    returns (items: seq<Source>, seen: set<Id>, ghost nodes: seq<Place>)
    requires Closed(store) && forall t :: Some(t) in Roots(chats) ==> t in store
    requires n < |chats| && chats[n].Chat?
    requires Gathered(store, chats, n, 0, 0, before, Roots(chats[..n]), nodesBefore, visited)
    ensures Gathered(store, chats, n + 1, 0, 0, items, Roots(chats[..n + 1]), nodes, seen)
  {
    items := IterActions(store, chats, n, before, visited, nodesBefore);
    RootsWithin(chats, n);
    items, seen, nodes := IterSteps(store, chats, n, items, visited, nodesBefore);
    var below, reached := IterTargets(store, [chats[n].flowGraph], seen);
    GatherFlow(store, chats, n, items, nodes, seen, below, reached);
    items, seen, nodes := items + Wrapped(below), reached, nodes + below;
  }

  method IterActions(store: Store, chats: seq<Chat>, n: nat, before: seq<Source>, ghost visited: set<Id>,
                     ghost nodes: seq<Place>)
    returns (items: seq<Source>)
    requires n < |chats| && chats[n].Chat? && Gathered(store, chats, n, 0, 0, before, Roots(chats[..n]), nodes, visited)
    ensures Gathered(store, chats, n, |chats[n].actions|, 0, items, Roots(chats[..n]), nodes, visited)
  {
    items := before;
    for a := 0 to |chats[n].actions|
      invariant Gathered(store, chats, n, a, 0, items, Roots(chats[..n]), nodes, visited)
    {
      if chats[n].actions[a].Some? {
        GatherItem(store, chats, n, a, 0, a + 1, 0, items, FromAction(n, a), Roots(chats[..n]), nodes, visited);
        items := items + [FromAction(n, a)];
      }
    }
  }

  method IterSteps(store: Store, chats: seq<Chat>, n: nat, before: seq<Source>, visited: set<Id>,
                   ghost nodesBefore: seq<Place>)
    returns (items: seq<Source>, seen: set<Id>, ghost nodes: seq<Place>)
    requires n < |chats| && chats[n].Chat? && Closed(store) && forall t :: Some(t) in ChatRoots(chats[n]) ==> t in store
    requires Gathered(store, chats, n, |chats[n].actions|, 0, before, Roots(chats[..n]), nodesBefore, visited)
    ensures Gathered(store, chats, n, |chats[n].actions|, |chats[n].steps|, items,
      Roots(chats[..n]) + StepRoots(chats[n].steps), nodes, seen)
  {
    items, seen, nodes := before, visited, nodesBefore;
    var steps := chats[n].steps;
    ghost var roots := Roots(chats[..n]);
    assert roots + StepRoots(steps[..0]) == roots;
    for s := 0 to |steps|
      invariant Gathered(store, chats, n, |chats[n].actions|, s, items, roots + StepRoots(steps[..s]), nodes, seen)
    {
      if steps[s].Step? {
        StepWithin(steps, s);
        var below, reached := IterTargets(store, StepTargets(steps[s]), seen);
        GatherStep(store, chats, n, s, items, roots, nodes, seen, below, reached);
        items, seen, nodes := items + [FromStep(n, s)] + Wrapped(below), reached, nodes + below;
      } else {
        SkipStep(chats, n, s, roots);
      }
    }
    assert steps[..|steps|] == steps;
  }

  // ---------- the two questions ----------

  const RESPONSE_ACTIONS: set<int> := {3, 4, 5, 6, 7, 8}
  const KEYWORD_MONITOR := 8
  const CUSTOM_PLUGIN := 99

  function Lower(s: string): string
  {
    seq(|s|, i requires 0 <= i < |s| => if 'A' <= s[i] <= 'Z' then (s[i] as int + 32) as char else s[i])
  }

  /** The number of an item's action: "action" counts if the key is there, whatever its value. */
  function ActionNumber(item: Item): Option<int>
  {
    var raw := if item.action.Absent? then item.actionType else item.action;
    if raw.Absent? then None else raw.number
  }

  predicate NeedsUpdates(item: Item)
  {
    || Lower(Strip(item.nodeType)) == "wait_event"
    || item.waits
    || (ActionNumber(item).Some?
        && (ActionNumber(item).value in RESPONSE_ACTIONS
            || (ActionNumber(item).value == CUSTOM_PLUGIN && (item.mode == "" || item.mode == "reactive"))))
  }

  /** The text is the word in any mixture of upper and lower case. */
  predicate AnyCase(text: string, low: string, high: string)
    requires |low| == |high|
  {
    |text| == |low| && forall i :: 0 <= i < |low| ==> text[i] == low[i] || text[i] == high[i]
  }

  lemma LowerExactly(text: string)
    ensures Lower(text) == "wait_event" <==> AnyCase(text, "wait_event", "WAIT_EVENT")
  {
    var low, high := "wait_event", "WAIT_EVENT";
    assert forall i :: 0 <= i < |low| ==> Lower([high[i]])[0] == low[i];
    if Lower(text) == low {
      forall i | 0 <= i < |low| ensures text[i] == low[i] || text[i] == high[i] {
        assert Lower(text)[i] == low[i];
      }
    }
  }

  /** The number of the item's action; a key "action" decides alone. */
  predicate ActsWith(item: Item, n: int)
  {
    item.action == Value(Some(n)) || (item.action.Absent? && item.actionType == Value(Some(n)))
  }

  predicate NeedyNumber(n: int, mode: string)
  {
    3 <= n <= 8 || (n == 99 && (mode == "" || mode == "reactive"))
  }

  lemma NumberExactly(item: Item)
    ensures ActionNumber(item).Some? && ActionNumber(item).value in RESPONSE_ACTIONS
      <==> exists n :: ActsWith(item, n) && 3 <= n <= 8
    ensures ActionNumber(item) == Some(CUSTOM_PLUGIN) <==> ActsWith(item, 99)
    ensures IsKeywordMonitor(item) <==> ActsWith(item, 8)
  {
    var found := ActionNumber(item);
    if found.Some? { assert ActsWith(item, found.value); }
  }

  /**
   * An item needs updates exactly if it waits for an event or a reply, if its action is one of those with the numbers
   * 3 to 8, or if it is a custom plugin that names no other mode than the reactive one.
   */
  lemma NeedsUpdatesExactly(item: Item)
    ensures NeedsUpdates(item) <==>
      || AnyCase(Strip(item.nodeType), "wait_event", "WAIT_EVENT")
      || item.waits
      || exists n :: ActsWith(item, n) && NeedyNumber(n, item.mode)
  {
    LowerExactly(Strip(item.nodeType));
    NumberExactly(item);
    assert ActsWith(item, 99) && NeedyNumber(99, item.mode) ==>
      exists n :: ActsWith(item, n) && NeedyNumber(n, item.mode);
  }

  ghost predicate AnySource(store: Store, chats: seq<Chat>, needs: Item -> bool)
  {
    exists x :: IsSource(store, chats, x) && needs(ItemAt(store, chats, x))
  }

  method AnyItem(store: Store, chats: seq<Chat>, needs: Item -> bool) returns (r: bool)
    requires Closed(store) && forall t :: Some(t) in Roots(chats) ==> t in store
    ensures r <==> AnySource(store, chats, needs)
  {
    var items := IterChatActions(store, chats);
    for i := 0 to |items|
      invariant forall j :: 0 <= j < i ==> HasItem(store, chats, items[j]) && !needs(ItemAt(store, chats, items[j]))
    {
      assert items[i] in items;
      if needs(ItemAt(store, chats, items[i])) { return true; }
    }
    return false;
  }

  /** False exactly if the chats are a list and no action, step or reachable node needs updates. */
  method TaskRequiresUpdates(store: Store, config: Config) returns (r: bool)
    requires Closed(store) && (config.Config? ==> forall t :: Some(t) in Roots(config.chats) ==> t in store)
    ensures r <==> config.BadConfig? || !config.isList || AnySource(store, config.chats, NeedsUpdates)
  {
    if config.BadConfig? || !config.isList { return true; }
    r := AnyItem(store, config.chats, NeedsUpdates);
  }

  predicate IsKeywordMonitor(item: Item)
  {
    ActionNumber(item) == Some(KEYWORD_MONITOR)
  }

  method TaskHasKeywordMonitor(store: Store, config: Config) returns (r: bool)
    requires Closed(store) && (config.Config? ==> forall t :: Some(t) in Roots(config.chats) ==> t in store)
    ensures r <==> config.Config? && AnySource(store, config.chats, IsKeywordMonitor)
  {
    if config.BadConfig? { return false; }
    r := AnyItem(store, config.chats, IsKeywordMonitor);
  }
}
