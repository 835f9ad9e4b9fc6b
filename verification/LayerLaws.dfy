/**
 What a sort answers, in terms of the actions and the declared order of their
 types: which kinds are placed where, what is refused, and what comes out.
 */
module LayerLaws {
  import opened Results
  import opened Order
  import opened Bags
  import opened Graph
  import opened PlanTypes
  import opened Topology
  import opened Kahn
  import opened Sorter

  // ---- the layers, by the declared types ----

  predicate EpicAction(a: Action) {
    a.nodeType == "proposal_epic"
  }

  predicate CleanupCreate(a: Action) {
    !EpicAction(a) && "Code cleanup:" <= a.reason
  }

  /** The action's type stands at place i of the declared types, and at no later one. */
  ghost predicate Declared(planRelevant: seq<string>, a: Action, i: int) {
    && !EpicAction(a) && !CleanupCreate(a)
    && 0 <= i < |planRelevant| && planRelevant[i] == a.nodeType && forall j :: i < j < |planRelevant| ==> planRelevant[j] != a.nodeType
  }

  /** The epic, a cleanup, or of a declared type. */
  predicate HasPlace(planRelevant: seq<string>, a: Action) {
    EpicAction(a) || CleanupCreate(a) || a.nodeType in planRelevant
  }

  /** The epic comes before all others, cleanups after all others, types as they are declared. */
  ghost predicate Earlier(planRelevant: seq<string>, a: Action, b: Action) {
    || (EpicAction(a) && !EpicAction(b))
    || (CleanupCreate(b) && !CleanupCreate(a))
    || (exists i, j :: Declared(planRelevant, a, i) && Declared(planRelevant, b, j) && i < j)
  }

  lemma {:induction false} IndexIsLast(planRelevant: seq<string>, t: string)
    ensures t in LayerIndex(planRelevant) <==> t in planRelevant
    ensures t in LayerIndex(planRelevant) ==>
              var i := LayerIndex(planRelevant)[t] - 1;
              0 <= i < |planRelevant| && planRelevant[i] == t && forall j :: i < j < |planRelevant| ==> planRelevant[j] != t
  {
    if planRelevant != [] {
      var n := |planRelevant| - 1;
      IndexIsLast(planRelevant[..n], t);
      assert planRelevant == planRelevant[..n] + [planRelevant[n]];
    }
  }

  lemma PlaceExactly(planRelevant: seq<string>, a: Action)
    ensures LayerFor(a, planRelevant).Some? <==> HasPlace(planRelevant, a)
    ensures LayerFor(a, planRelevant).Some? ==>
              var l := LayerFor(a, planRelevant).value;
              if EpicAction(a) then l == 0
              else if CleanupCreate(a) then l == |planRelevant| + 1
              else 1 <= l <= |planRelevant| && Declared(planRelevant, a, l - 1)
  {
    hide LayerIndex;
    IndexIsLast(planRelevant, a.nodeType);
  }

  lemma DeclaredOnce(planRelevant: seq<string>, a: Action, i: int, j: int)
    requires Declared(planRelevant, a, i) && Declared(planRelevant, a, j)
    ensures i == j
  {
  }

  lemma EarlierExactly(planRelevant: seq<string>, a: Action, b: Action)
    requires LayerFor(a, planRelevant).Some? && LayerFor(b, planRelevant).Some?
    ensures LayerFor(a, planRelevant).value < LayerFor(b, planRelevant).value <==> Earlier(planRelevant, a, b)
  {
    hide LayerFor, IsCleanup;
    PlaceExactly(planRelevant, a);
    PlaceExactly(planRelevant, b);
    var m, n := LayerFor(a, planRelevant).value, LayerFor(b, planRelevant).value;
    if i, j :| Declared(planRelevant, a, i) && Declared(planRelevant, b, j) && i < j {
      DeclaredOnce(planRelevant, a, i, m - 1);
      DeclaredOnce(planRelevant, b, j, n - 1);
    }
  }

  // ---- refusals ----

  /** The first action of the batch that has no place. */
  ghost predicate FirstPlaceless(planRelevant: seq<string>, actions: seq<Action>, a: Action) {
    exists i :: 0 <= i < |actions| && actions[i] == a && !HasPlace(planRelevant, a)
                && forall j :: 0 <= j < i ==> HasPlace(planRelevant, actions[j])
  }

  ghost predicate AllHavePlace(planRelevant: seq<string>, actions: seq<Action>) {
    forall a :: a in actions ==> HasPlace(planRelevant, a)
  }

  /** An action names, among its dependencies, one of the batch that comes later. */
  ghost predicate NamesLater(planRelevant: seq<string>, actions: seq<Action>, a: Action, b: Action) {
    a in actions && b in actions && b.node in a.deps && Earlier(planRelevant, a, b)
  }

  ghost predicate NoneNamesLater(planRelevant: seq<string>, actions: seq<Action>) {
    forall a, b :: !NamesLater(planRelevant, actions, a, b)
  }

  /** Each node of p depends on the next, which is of the batch, and the last is the first. */
  ghost predicate DependencyCycle(actions: seq<Action>, p: seq<string>) {
    |p| >= 2 && p[0] == p[|p| - 1] && forall i {:trigger DependsAt(actions, p, i)} :: 0 <= i < |p| - 1 ==> DependsAt(actions, p, i)
  }

  ghost predicate DependsAt(actions: seq<Action>, p: seq<string>, i: int)
    requires 0 <= i < |p| - 1
  {
    exists a, b :: a in actions && b in actions && a.node == p[i] && b.node == p[i + 1] && b.node in a.deps
  }

  lemma EdgeExactly(actions: seq<Action>, x: string, d: string)
    requires DistinctIds(actions)
    ensures Edge(DepGraph(actions), x, d) <==>
            exists a, b :: a in actions && b in actions && a.node == x && b.node == d && b.node in a.deps
  {
    DepGraphEdges(actions);
    if a, b :| a in actions && b in actions && a.node == x && b.node == d && b.node in a.deps {
      KeepMember(a.deps, NodeSet(actions));
    }
    if Edge(DepGraph(actions), x, d) {
      var a := ById(actions, x);
      KeepMember(a.deps, NodeSet(actions));
      var b := ById(actions, d);
    }
  }

  lemma CycleExactly(actions: seq<Action>)
    requires DistinctIds(actions)
    ensures Acyclic(DepGraph(actions)) <==> forall p :: !DependencyCycle(actions, p)
  {
    hide DistinctIds;
    var g := DepGraph(actions);
    forall p
      ensures Cycle(g, p) <==> DependencyCycle(actions, p)
    {
      forall i | 0 <= i < |p| - 1
        ensures Step(g, p, i) <==> DependsAt(actions, p, i)
      {
        EdgeExactly(actions, p[i], p[i + 1]);
      }
    }
  }

  lemma ForwardExactly(planRelevant: seq<string>, actions: seq<Action>, a: Action, d: string)
    requires DistinctIds(actions) && AllPlaced(actions, planRelevant) && a in actions
    ensures ForwardDep(Layers(actions, planRelevant), a.node, d) ==
            if exists b :: b in actions && b.node == d && Earlier(planRelevant, a, b) then [a.node + " depends on later-layer " + d] else []
  {
    hide LayerFor, Earlier, DistinctIds;
    LayersAt(actions, planRelevant);
    if d in NodeSet(actions) {
      var b := ById(actions, d);
      EarlierExactly(planRelevant, a, b);
      forall c | c in actions && c.node == d
        ensures c == b
      {
        SameId(actions, b, c);
      }
    }
  }

  lemma NoForwardExactly(planRelevant: seq<string>, actions: seq<Action>)
    requires DistinctIds(actions) && AllPlaced(actions, planRelevant)
    ensures NoForward(actions, Layers(actions, planRelevant)) <==> NoneNamesLater(planRelevant, actions)
  {
    hide LayerFor, Earlier, DistinctIds, ForwardDep, AllPlaced;
    var rank := Layers(actions, planRelevant);
    forall a, d | a in actions && d in a.deps
      ensures ForwardDep(rank, a.node, d) == [] <==> forall b: Action :: b.node == d ==> !NamesLater(planRelevant, actions, a, b)
    {
      ForwardExactly(planRelevant, actions, a, d);
    }
  }

  /** What is said of the pairs that point at a later layer. */
  ghost predicate Complains(planRelevant: seq<string>, actions: seq<Action>, m: string) {
    exists a, b :: NamesLater(planRelevant, actions, a, b) && m == a.node + " depends on later-layer " + b.node
  }

  lemma MessagesExactly(planRelevant: seq<string>, actions: seq<Action>, m: string)
    requires DistinctIds(actions) && AllPlaced(actions, planRelevant)
    ensures m in ForwardMessages(Layers(actions, planRelevant), actions) <==> Complains(planRelevant, actions, m)
  {
    hide LayerFor, Earlier, DistinctIds, ForwardDep, AllPlaced, FlatMap;
    var rank := Layers(actions, planRelevant);
    FlatMapMember(ForwardOf(rank), actions, m);
    forall a | a in actions
      ensures m in ForwardOf(rank)(a) <==> exists b :: NamesLater(planRelevant, actions, a, b) && m == a.node + " depends on later-layer " + b.node
    {
      FlatMapMember(ForwardFrom(rank, a.node), a.deps, m);
      forall d | d in a.deps
        ensures m in ForwardFrom(rank, a.node)(d) <==>
                exists b: Action :: b.node == d && NamesLater(planRelevant, actions, a, b) && m == a.node + " depends on later-layer " + b.node
      {
        ForwardExactly(planRelevant, actions, a, d);
      }
    }
  }

  lemma PlacedExactly(planRelevant: seq<string>, actions: seq<Action>)
    ensures AllPlaced(actions, planRelevant) <==> AllHavePlace(planRelevant, actions)
  {
    hide LayerFor, HasPlace;
    forall a
      ensures LayerFor(a, planRelevant).Some? <==> HasPlace(planRelevant, a)
    {
      PlaceExactly(planRelevant, a);
    }
  }

  // ---- what comes out ----

  /** All of the action's dependencies within the batch are among those placed. */
  ghost predicate Free(actions: seq<Action>, placed: seq<string>, a: Action) {
    a in actions && a.node !in placed && forall b :: b in actions && b.node in a.deps ==> b.node in placed
  }

  /** At every step the action placed is free, and of all free ones it is first by layer, then by id. */
  ghost predicate LeastFree(planRelevant: seq<string>, actions: seq<Action>, order: seq<Action>, k: int)
    requires 0 <= k < |order|
  {
    && Free(actions, IdsOf(order)[..k], order[k])
    && forall a :: Free(actions, IdsOf(order)[..k], a) && a != order[k] ==>
         Earlier(planRelevant, order[k], a) || (!Earlier(planRelevant, a, order[k]) && Less(order[k].node, a.node))
  }

  /** The whole answer of a sort. */
  ghost predicate SortSays(planRelevant: seq<string>, actions: seq<Action>, r: Result<seq<Action>, SortError>) {
    match r
    case Err(UnplacedKind(node, kind)) =>
      exists a :: FirstPlaceless(planRelevant, actions, a) && node == a.node && kind == a.nodeType
    case Err(ForwardDeps(messages)) =>
      && AllHavePlace(planRelevant, actions) && !NoneNamesLater(planRelevant, actions)
      && (forall m :: m in messages <==> Complains(planRelevant, actions, m)) && SortedBy(Leq, messages)
    case Err(CycleAmong(_)) =>
      AllHavePlace(planRelevant, actions) && NoneNamesLater(planRelevant, actions) && exists p :: DependencyCycle(actions, p)
    case Ok(order) =>
      && AllHavePlace(planRelevant, actions) && NoneNamesLater(planRelevant, actions) && (forall p :: !DependencyCycle(actions, p))
      && multiset(order) == multiset(actions)
      && (forall i, j :: 0 <= i < j < |order| ==> !Earlier(planRelevant, order[j], order[i]))
      && (forall k :: 0 <= k < |order| ==> LeastFree(planRelevant, actions, order, k))
  }

  lemma FreeExactly(actions: seq<Action>, placed: seq<string>, a: Action)
    requires DistinctIds(actions) && a in actions
    ensures Ready(DepGraph(actions), placed, a.node) <==> Free(actions, placed, a)
  {
    hide DistinctIds;
    var g := DepGraph(actions);
    assert a.node in NodeSet(actions);
    forall d
      ensures Edge(g, a.node, d) <==> exists b :: b in actions && b.node == d && b.node in a.deps
    {
      EdgeExactly(actions, a.node, d);
      forall c | c in actions && c.node == a.node
        ensures c == a
      {
        SameId(actions, c, a);
      }
    }
  }

  lemma LeastExactly(planRelevant: seq<string>, actions: seq<Action>, order: seq<Action>, k: int)
    requires DistinctIds(actions) && AllPlaced(actions, planRelevant) && 0 <= k < |order|
    requires multiset(order) == multiset(actions)
    requires ReadyAt(DepGraph(actions), IdsOf(order), k) && LeastAt(DepGraph(actions), Layers(actions, planRelevant), IdsOf(order), k)
    ensures LeastFree(planRelevant, actions, order, k)
  {
    hide DistinctIds, LayerFor, Earlier, Free, AllPlaced;
    var g, rank, placed := DepGraph(actions), Layers(actions, planRelevant), IdsOf(order)[..k];
    LayersAt(actions, planRelevant);
    assert order[k] in multiset(actions);
    FreeExactly(actions, placed, order[k]);
    forall a | Free(actions, placed, a) && a != order[k]
      ensures Earlier(planRelevant, order[k], a) || (!Earlier(planRelevant, a, order[k]) && Less(order[k].node, a.node))
    {
      FreeMember(actions, placed, a);
      FreeExactly(actions, placed, a);
      if a.node == order[k].node {
        SameId(actions, a, order[k]);
      }
      PlacedPair(planRelevant, actions, a, order[k]);
      EarlierExactly(planRelevant, order[k], a);
      EarlierExactly(planRelevant, a, order[k]);
    }
  }

  lemma FreeMember(actions: seq<Action>, placed: seq<string>, a: Action)
    requires Free(actions, placed, a)
    ensures a in actions
  {
  }

  lemma PlacedPair(planRelevant: seq<string>, actions: seq<Action>, a: Action, b: Action)
    requires AllPlaced(actions, planRelevant) && a in actions && b in actions
    ensures LayerFor(a, planRelevant).Some? && LayerFor(b, planRelevant).Some?
  {
  }

  lemma OrderSays(planRelevant: seq<string>, actions: seq<Action>, order: seq<Action>)
    requires DistinctIds(actions) && AllPlaced(actions, planRelevant)
    requires NoForward(actions, Layers(actions, planRelevant)) && SortOutcome(actions, planRelevant, Ok(order))
    ensures multiset(order) == multiset(actions)
    ensures forall i, j :: 0 <= i < j < |order| ==> !Earlier(planRelevant, order[j], order[i])
    ensures forall k :: 0 <= k < |order| ==> LeastFree(planRelevant, actions, order, k)
  {
    hide DistinctIds, LayerFor, Earlier, LeastFree, LeastAt, ReadyAt;
    SortedLayersAscend(actions, planRelevant, order);
    forall i, j | 0 <= i < j < |order|
      ensures !Earlier(planRelevant, order[j], order[i])
    {
      EarlierExactly(planRelevant, order[j], order[i]);
    }
    forall k | 0 <= k < |order|
      ensures LeastFree(planRelevant, actions, order, k)
    {
      assert ReadyAt(DepGraph(actions), IdsOf(order), k) && LeastAt(DepGraph(actions), Layers(actions, planRelevant), IdsOf(order), k);
      LeastExactly(planRelevant, actions, order, k);
    }
  }

  lemma UnplacedSays(planRelevant: seq<string>, actions: seq<Action>, e: SortError)
    requires FirstUnplaced(actions, planRelevant, e)
    ensures exists a :: FirstPlaceless(planRelevant, actions, a) && e == UnplacedKind(a.node, a.nodeType)
  {
    hide LayerFor, HasPlace;
    var i :| 0 <= i < |actions| && LayerFor(actions[i], planRelevant).None?
      && (forall j :: 0 <= j < i ==> LayerFor(actions[j], planRelevant).Some?) && e == UnplacedKind(actions[i].node, actions[i].nodeType);
    forall a
      ensures LayerFor(a, planRelevant).Some? <==> HasPlace(planRelevant, a)
    {
      PlaceExactly(planRelevant, a);
    }
    assert FirstPlaceless(planRelevant, actions, actions[i]);
  }

  lemma MessagesSay(planRelevant: seq<string>, actions: seq<Action>)
    requires DistinctIds(actions) && AllPlaced(actions, planRelevant)
    ensures var all := SortStrings(ForwardMessages(Layers(actions, planRelevant), actions));
            (forall m :: m in all <==> Complains(planRelevant, actions, m)) && SortedBy(Leq, all)
  {
    hide LayerFor, Complains, DistinctIds, ForwardMessages;
    var raw := ForwardMessages(Layers(actions, planRelevant), actions);
    LeqOrdering();
    SortBySorted(Leq, raw);
    forall m
      ensures m in SortStrings(raw) <==> Complains(planRelevant, actions, m)
    {
      MessagesExactly(planRelevant, actions, m);
      assert m in SortStrings(raw) <==> m in multiset(SortStrings(raw));
      assert m in raw <==> m in multiset(raw);
    }
  }

  /** Every answer a sort can give says what it should, whatever the batch. */
  lemma SortSaysSo(planRelevant: seq<string>, actions: seq<Action>, r: Result<seq<Action>, SortError>)
    requires DistinctIds(actions) && SortOutcome(actions, planRelevant, r)
    ensures SortSays(planRelevant, actions, r)
  {
    hide DistinctIds, LayerFor, FirstUnplaced, NoneNamesLater, Complains, DependencyCycle, LeastFree, Earlier, Acyclic, FirstPlaceless, CyclicLayer, AllPlaced, AllHavePlace, NoForward;
    PlacedExactly(planRelevant, actions);
    if !AllPlaced(actions, planRelevant) {
      UnplacedSays(planRelevant, actions, r.error);
    } else {
      NoForwardExactly(planRelevant, actions);
      CycleExactly(actions);
      if !NoForward(actions, Layers(actions, planRelevant)) {
        MessagesSay(planRelevant, actions);
      } else if r.Ok? {
        OrderSays(planRelevant, actions, r.value);
      }
    }
  }

  /** With distinct types and the epic apart: the epic first, cleanups last, and the creates of one type before those of a later one. */
  lemma TypesInOrder(planRelevant: seq<string>, actions: seq<Action>, order: seq<Action>, p: nat, q: nat)
    requires SortSays(planRelevant, actions, Ok(order)) && NoDuplicates(planRelevant) && p < q < |order|
    ensures EpicAction(order[q]) ==> EpicAction(order[p])
    ensures CleanupCreate(order[p]) ==> CleanupCreate(order[q])
    ensures forall i, j :: OfType(planRelevant, order[p], i) && OfType(planRelevant, order[q], j) ==> i <= j
  {
    hide IsCleanup;
    assert !Earlier(planRelevant, order[q], order[p]);
    forall i, j | OfType(planRelevant, order[p], i) && OfType(planRelevant, order[q], j)
      ensures i <= j
    {
      assert Declared(planRelevant, order[p], i) && Declared(planRelevant, order[q], j);
    }
  }

  predicate OfType(planRelevant: seq<string>, a: Action, i: int) {
    !EpicAction(a) && !CleanupCreate(a) && 0 <= i < |planRelevant| && a.nodeType == planRelevant[i]
  }
}
