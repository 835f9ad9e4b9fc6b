/**
 The layered topological sorter: the proposal epic, one layer per plan-relevant
 node type in declared order, cleanups last; Kahn's algorithm inside each layer.
 */
module Sorter {
  import opened Results
  import opened Order
  import opened Graph
  import opened Bags
  import opened Topology
  import opened PlanTypes
  import opened Kahn

  datatype SortError =
    | UnplacedKind(node: string, kind: string)
    | ForwardDeps(messages: seq<string>)
    | CycleAmong(nodes: seq<string>)

  /** The layer of each declared type; a type declared twice keeps its last position. */
  function LayerIndex(planRelevant: seq<string>): (m: map<string, nat>)
    ensures forall t :: t in m ==> 1 <= m[t] <= |planRelevant|
  {
    if planRelevant == [] then
      map[]
    else
      var n := |planRelevant|;
      LayerIndex(planRelevant[..n - 1])[planRelevant[n - 1] := n]
  }

  function CleanupLayer(planRelevant: seq<string>): nat {
    |planRelevant| + 1
  }

  function LayerFor(a: Action, planRelevant: seq<string>): (r: Option<nat>)
    ensures r.Some? ==> r.value <= CleanupLayer(planRelevant)
  {
    if a.nodeType == KIND_PROPOSAL_EPIC then
      Some(0)
    else if IsCleanup(a) then
      Some(CleanupLayer(planRelevant))
    else if a.nodeType in LayerIndex(planRelevant) then
      Some(LayerIndex(planRelevant)[a.nodeType])
    else
      None
  }

  ghost predicate AllPlaced(actions: seq<Action>, planRelevant: seq<string>) {
    forall a :: a in actions ==> LayerFor(a, planRelevant).Some?
  }

  /** Each id's layer. */
  ghost function Layers(actions: seq<Action>, planRelevant: seq<string>): (m: map<string, int>)
    requires AllPlaced(actions, planRelevant)
    ensures m.Keys == NodeSet(actions)
  {
    map id | id in NodeSet(actions) :: LayerFor(ById(actions, id), planRelevant).value as int
  }

  lemma LayersAt(actions: seq<Action>, planRelevant: seq<string>)
    requires DistinctIds(actions) && AllPlaced(actions, planRelevant)
    ensures forall a :: a in actions ==>
              Layers(actions, planRelevant)[a.node] == LayerFor(a, planRelevant).value
  {
    forall a | a in actions
      ensures Layers(actions, planRelevant)[a.node] == LayerFor(a, planRelevant).value
    {
      SameId(actions, a, ById(actions, a.node));
    }
  }

  lemma LayersPermute(a: seq<Action>, b: seq<Action>, planRelevant: seq<string>)
    requires DistinctIds(a) && DistinctIds(b) && multiset(a) == multiset(b)
    requires AllPlaced(a, planRelevant) && AllPlaced(b, planRelevant)
    ensures Layers(a, planRelevant) == Layers(b, planRelevant)
  {
    SameNodes(a, b);
    var ma, mb := Layers(a, planRelevant), Layers(b, planRelevant);
    assert ma.Keys == mb.Keys;
    forall id | id in ma
      ensures ma[id] == mb[id]
    {
      SameId(b, ById(a, id), ById(b, id));
    }
  }

  /** What is said about a dependency that lies in a later layer than its dependent. */
  function ForwardDep(layerOf: map<string, int>, node: string, dep: string): seq<string> {
    if dep in layerOf && node in layerOf && layerOf[dep] > layerOf[node] then
      [node + " depends on later-layer " + dep]
    else
      []
  }

  function ForwardFrom(layerOf: map<string, int>, node: string): string -> seq<string> {
    (dep: string) => ForwardDep(layerOf, node, dep)
  }

  function ForwardOf(layerOf: map<string, int>): Action -> seq<string> {
    (a: Action) => FlatMap(ForwardFrom(layerOf, a.node), a.deps)
  }

  function ForwardMessages(layerOf: map<string, int>, actions: seq<Action>): seq<string> {
    FlatMap(ForwardOf(layerOf), actions)
  }

  /** No action depends on one of a later layer. */
  ghost predicate NoForward(actions: seq<Action>, layerOf: map<string, int>) {
    forall a, d :: a in actions && d in a.deps ==> ForwardDep(layerOf, a.node, d) == []
  }

  lemma NoMessages(actions: seq<Action>, layerOf: map<string, int>)
    ensures ForwardMessages(layerOf, actions) == [] <==> NoForward(actions, layerOf)
  {
    if ForwardMessages(layerOf, actions) == [] {
      forall a, d | a in actions && d in a.deps
        ensures ForwardDep(layerOf, a.node, d) == []
      {
        if ForwardDep(layerOf, a.node, d) != [] {
          var m := ForwardDep(layerOf, a.node, d)[0];
          assert m in ForwardFrom(layerOf, a.node)(d);
          FlatMapMember(ForwardFrom(layerOf, a.node), a.deps, m);
          FlatMapMember(ForwardOf(layerOf), actions, m);
        }
      }
    } else {
      var m := ForwardMessages(layerOf, actions)[0];
      FlatMapMember(ForwardOf(layerOf), actions, m);
      var a :| a in actions && m in ForwardOf(layerOf)(a);
      FlatMapMember(ForwardFrom(layerOf, a.node), a.deps, m);
    }
  }

  method CheckNoForwardLayerDeps(actions: seq<Action>, layerOf: map<string, int>) returns (bad: seq<string>)
    requires forall a :: a in actions ==> a.node in layerOf
    ensures bad == SortStrings(ForwardMessages(layerOf, actions))
  {
    bad := [];
    for k := 0 to |actions|
      invariant bad == ForwardMessages(layerOf, actions[..k])
    {
      var b := actions[k];
      ghost var before := bad;
      for j := 0 to |b.deps|
        invariant bad == before + FlatMap(ForwardFrom(layerOf, b.node), b.deps[..j])
      {
        FlatMapNext(ForwardFrom(layerOf, b.node), b.deps, j);
        var dep := b.deps[j];
        if dep in layerOf && layerOf[dep] > layerOf[b.node] {
          bad := bad + [b.node + " depends on later-layer " + dep];
        }
      }
      assert b.deps[..|b.deps|] == b.deps;
      FlatMapNext(ForwardOf(layerOf), actions, k);
    }
    assert actions[..|actions|] == actions;
    bad := SortStrings(bad);
  }

  /** The actions of one layer, in batch order. */
  function LayerNodes(actions: seq<Action>, planRelevant: seq<string>, layer: nat): (r: seq<Action>)
    ensures forall a :: a in r <==> a in actions && LayerFor(a, planRelevant) == Some(layer)
  {
    if actions == [] then
      []
    else
      var init, last := actions[..|actions| - 1], actions[|actions| - 1];
      assert actions == init + [last];
      LayerNodes(init, planRelevant, layer) + if LayerFor(last, planRelevant) == Some(layer) then [last] else []
  }

  lemma LayerNodesNext(actions: seq<Action>, planRelevant: seq<string>, layer: nat, k: nat)
    requires k < |actions|
    ensures LayerNodes(actions[..k + 1], planRelevant, layer) ==
            LayerNodes(actions[..k], planRelevant, layer) +
            if LayerFor(actions[k], planRelevant) == Some(layer) then [actions[k]] else []
  {
    assert actions[..k + 1][..k] == actions[..k];
  }

  lemma {:induction false} LayerNodesDistinct(actions: seq<Action>, planRelevant: seq<string>, layer: nat)
    requires DistinctIds(actions)
    ensures DistinctIds(LayerNodes(actions, planRelevant, layer))
  {
    if actions != [] {
      var init, last := actions[..|actions| - 1], actions[|actions| - 1];
      LayerNodesDistinct(init, planRelevant, layer);
      forall a | a in LayerNodes(init, planRelevant, layer)
        ensures a.node != last.node
      {
        var i :| 0 <= i < |init| && init[i] == a;
        assert actions[i] == a;
      }
    }
  }

  /** The dependency graph of one layer alone. */
  ghost function LayerGraph(actions: seq<Action>, planRelevant: seq<string>, layer: nat): Adjacency {
    DepGraph(LayerNodes(actions, planRelevant, layer))
  }

  /** A layer's graph is the batch graph restricted to the layer. */
  lemma LayerGraphEdges(actions: seq<Action>, planRelevant: seq<string>, layer: nat)
    requires DistinctIds(actions) && AllPlaced(actions, planRelevant)
    ensures forall x :: x in LayerGraph(actions, planRelevant, layer) <==>
                        x in DepGraph(actions) && Layers(actions, planRelevant)[x] == layer
    ensures forall x, d :: Edge(LayerGraph(actions, planRelevant, layer), x, d) <==>
                           x in LayerGraph(actions, planRelevant, layer) && Edge(DepGraph(actions), x, d)
                           && d in LayerGraph(actions, planRelevant, layer)
  {
    var nodes := LayerNodes(actions, planRelevant, layer);
    var g, gl, rank := DepGraph(actions), LayerGraph(actions, planRelevant, layer), Layers(actions, planRelevant);
    LayerNodesDistinct(actions, planRelevant, layer);
    LayersAt(actions, planRelevant);
    DepGraphEdges(actions);
    DepGraphEdges(nodes);
    forall x
      ensures x in gl <==> x in g && rank[x] == layer
    {
      if x in g {
        var a := ById(actions, x);
        assert a in nodes <==> rank[x] == layer;
        if a in nodes {
          assert a.node in NodeSet(nodes);
        }
        if x in gl {
          SameId(actions, a, ById(nodes, x));
        }
      }
    }
    forall x, d
      ensures Edge(gl, x, d) <==> x in gl && Edge(g, x, d) && d in gl
    {
      if x in gl {
        var a := ById(nodes, x);
        KeepMember(a.deps, NodeSet(nodes));
        KeepMember(a.deps, NodeSet(actions));
        assert gl[x] == Keep(a.deps, NodeSet(nodes)) && g[x] == Keep(a.deps, NodeSet(actions));
      }
    }
  }

  // ---- putting the layers together ----

  ghost predicate Restriction(g: Adjacency, rank: map<string, int>, gl: Adjacency, layer: int)
    requires g.Keys <= rank.Keys
  {
    && (forall x :: x in gl <==> x in g && rank[x] == layer)
    && (forall x, d :: Edge(gl, x, d) <==> x in gl && Edge(g, x, d) && d in gl)
  }

  ghost predicate NeverUp(g: Adjacency, rank: map<string, int>)
    requires g.Keys <= rank.Keys
  {
    forall x, d :: Edge(g, x, d) ==> d in g && rank[d] <= rank[x]
  }

  /** `placed` holds exactly the nodes of the layers below `layer`. */
  ghost predicate PlacedBelow(g: Adjacency, rank: map<string, int>, placed: seq<string>, layer: int)
    requires g.Keys <= rank.Keys
  {
    forall x :: x in placed <==> x in g && rank[x] < layer
  }

  lemma GreedyPrefixInit(g: Adjacency, rank: map<string, int>, order: seq<string>)
    requires g.Keys <= rank.Keys && GreedyPrefix(g, rank, order) && order != []
    ensures GreedyPrefix(g, rank, order[..|order| - 1])
  {
    var init := order[..|order| - 1];
    forall k {:trigger ReadyAt(g, init, k)} {:trigger LeastAt(g, rank, init, k)} | 0 <= k < |init|
      ensures ReadyAt(g, init, k) && LeastAt(g, rank, init, k)
    {
      assert init[..k] == order[..k];
      assert ReadyAt(g, order, k) && LeastAt(g, rank, order, k);
    }
  }

  /** A node that is ready and least within its layer is so within the batch, once lower layers are placed. */
  lemma LayerHead(g: Adjacency, rank: map<string, int>, gl: Adjacency, layer: int,
                  placed: seq<string>, within: seq<string>, x: string)
    requires g.Keys <= rank.Keys && NeverUp(g, rank) && Restriction(g, rank, gl, layer)
    requires PlacedBelow(g, rank, placed, layer) && Ready(gl, within, x)
    requires forall y :: Ready(gl, within, y) && y != x ==> Precedes(rank, x, y)
    ensures Ready(g, placed + within, x)
    ensures forall y :: Ready(g, placed + within, y) && y != x ==> Precedes(rank, x, y)
  {
    forall d | Edge(g, x, d)
      ensures d in placed + within
    {
      if d in gl {
        assert Edge(gl, x, d);
      }
    }
    forall y | Ready(g, placed + within, y) && y != x
      ensures Precedes(rank, x, y)
    {
      assert rank[y] >= layer;
      if rank[y] == layer {
        forall d | Edge(gl, y, d)
          ensures d in within
        {
          assert Edge(g, y, d) && d !in placed;
        }
        assert Ready(gl, within, y);
      }
    }
  }

  lemma {:induction false} AppendLayer(g: Adjacency, rank: map<string, int>, gl: Adjacency, layer: int,
                                       placed: seq<string>, within: seq<string>)
    requires g.Keys <= rank.Keys && NeverUp(g, rank) && Restriction(g, rank, gl, layer)
    requires PlacedBelow(g, rank, placed, layer) && GreedyPrefix(g, rank, placed)
    requires gl.Keys <= rank.Keys && GreedyPrefix(gl, rank, within)
    ensures GreedyPrefix(g, rank, placed + within)
  {
    if within == [] {
      assert placed + within == placed;
    } else {
      var k := |within| - 1;
      var init, x := within[..k], within[k];
      GreedyPrefixInit(gl, rank, within);
      AppendLayer(g, rank, gl, layer, placed, init);
      assert ReadyAt(gl, within, k) && LeastAt(gl, rank, within, k);
      LayerHead(g, rank, gl, layer, placed, init, x);
      AppendReady(g, rank, placed + init, x);
      assert placed + within == placed + init + [x];
    }
  }

  lemma LayerPlaced(g: Adjacency, rank: map<string, int>, gl: Adjacency, layer: int,
                    placed: seq<string>, within: seq<string>)
    requires g.Keys <= rank.Keys && Restriction(g, rank, gl, layer) && PlacedBelow(g, rank, placed, layer)
    requires gl.Keys <= rank.Keys && Greedy(gl, rank, within)
    ensures PlacedBelow(g, rank, placed + within, layer + 1)
  {
    forall x | x in within
      ensures x in gl
    {
      var i := IndexIn(within, x);
      assert ReadyAt(gl, within, i);
    }
  }

  lemma SubgraphCycle(g: Adjacency, rank: map<string, int>, gl: Adjacency, layer: int)
    requires g.Keys <= rank.Keys && Restriction(g, rank, gl, layer) && !Acyclic(gl)
    ensures !Acyclic(g)
  {
    var p :| Cycle(gl, p);
    forall i | 0 <= i < |p| - 1
      ensures Step(g, p, i)
    {
      assert Step(gl, p, i);
    }
    assert Cycle(g, p);
  }

  /** Layers never fall along the result. */
  lemma GreedyAscends(g: Adjacency, rank: map<string, int>, order: seq<string>, i: nat, j: nat)
    requires g.Keys <= rank.Keys && NeverUp(g, rank) && Greedy(g, rank, order)
    requires i < j < |order|
    ensures order[i] in rank && order[j] in rank && rank[order[i]] <= rank[order[j]]
    decreases j
  {
    assert ReadyAt(g, order, i) && ReadyAt(g, order, j) && LeastAt(g, rank, order, i);
    if rank[order[j]] < rank[order[i]] {
      forall d | Edge(g, order[j], d)
        ensures d in order[..i]
      {
        assert d in order[..j];
        var k := IndexIn(order[..j], d);
        if k > i {
          GreedyAscends(g, rank, order, i, k);
        }
      }
      assert order[j] !in order[..i];
      assert Ready(g, order[..i], order[j]);
    }
  }

  // ---- the outcome ----

  /** The lowest layer that has a cycle, and the nodes of it that run into one. */
  ghost predicate CyclicLayer(actions: seq<Action>, planRelevant: seq<string>, layer: nat, stuck: seq<string>) {
    && StuckList(LayerGraph(actions, planRelevant, layer), stuck)
    && (forall l: nat :: l < layer ==> Acyclic(LayerGraph(actions, planRelevant, l)))
  }

  ghost predicate FirstUnplaced(actions: seq<Action>, planRelevant: seq<string>, e: SortError) {
    exists i :: 0 <= i < |actions| && LayerFor(actions[i], planRelevant).None?
      && (forall j :: 0 <= j < i ==> LayerFor(actions[j], planRelevant).Some?)
      && e == UnplacedKind(actions[i].node, actions[i].nodeType)
  }

  ghost predicate SortOutcome(actions: seq<Action>, planRelevant: seq<string>, r: Result<seq<Action>, SortError>) {
    if !AllPlaced(actions, planRelevant) then
      r.Err? && FirstUnplaced(actions, planRelevant, r.error)
    else
      var rank := Layers(actions, planRelevant);
      if !NoForward(actions, rank) then
        r == Err(ForwardDeps(SortStrings(ForwardMessages(rank, actions))))
      else
        match r
        case Ok(order) =>
          && Acyclic(DepGraph(actions))
          && multiset(order) == multiset(actions)
          && Greedy(DepGraph(actions), rank, IdsOf(order))
        case Err(e) =>
          && !Acyclic(DepGraph(actions)) && e.CycleAmong?
          && exists layer :: CyclicLayer(actions, planRelevant, layer, e.nodes)
  }

  lemma BatchNeverUp(actions: seq<Action>, planRelevant: seq<string>)
    requires DistinctIds(actions) && AllPlaced(actions, planRelevant)
    requires NoForward(actions, Layers(actions, planRelevant))
    ensures NeverUp(DepGraph(actions), Layers(actions, planRelevant))
  {
    var g, rank := DepGraph(actions), Layers(actions, planRelevant);
    DepGraphEdges(actions);
    forall x, d | Edge(g, x, d)
      ensures d in g && rank[d] <= rank[x]
    {
      var a := ById(actions, x);
      KeepMember(a.deps, NodeSet(actions));
      assert ForwardDep(rank, a.node, d) == [];
    }
  }

  /** The batch as the last layer leaves it. */
  lemma SortedWhole(actions: seq<Action>, planRelevant: seq<string>, order: seq<Action>)
    requires DistinctIds(actions) && AllPlaced(actions, planRelevant)
    requires NoForward(actions, Layers(actions, planRelevant))
    requires AllIn(order, actions)
    requires GreedyPrefix(DepGraph(actions), Layers(actions, planRelevant), IdsOf(order))
    requires PlacedBelow(DepGraph(actions), Layers(actions, planRelevant), IdsOf(order), CleanupLayer(planRelevant) + 1)
    ensures SortOutcome(actions, planRelevant, Ok(order))
  {
    var g, rank := DepGraph(actions), Layers(actions, planRelevant);
    forall x | x in g
      ensures x in IdsOf(order)
    {
      assert rank[x] < CleanupLayer(planRelevant) + 1;
    }
    TopologicalAcyclic(g, IdsOf(order));
    EmittedAll(actions, order, IdsOf(order));
  }

  method AssignLayers(actions: seq<Action>, planRelevant: seq<string>) returns (r: Result<map<string, int>, SortError>)
    requires DistinctIds(actions)
    ensures r.Ok? <==> AllPlaced(actions, planRelevant)
    ensures r.Ok? ==> r.value == Layers(actions, planRelevant)
    ensures r.Err? ==> FirstUnplaced(actions, planRelevant, r.error)
  {
    hide LayerFor;
    var layerOf: map<string, int> := map[];
    for k := 0 to |actions|
      invariant layerOf.Keys == NodeSet(actions[..k])
      invariant forall j :: 0 <= j < k ==> LayerFor(actions[j], planRelevant).Some?
      invariant forall j :: 0 <= j < k ==> actions[j].node in layerOf &&
                                           layerOf[actions[j].node] == LayerFor(actions[j], planRelevant).value
    {
      var l := LayerFor(actions[k], planRelevant);
      if l.None? {
        return Err(UnplacedKind(actions[k].node, actions[k].nodeType));
      }
      assert actions[..k + 1] == actions[..k] + [actions[k]];
      layerOf := layerOf[actions[k].node := l.value];
    }
    assert actions[..|actions|] == actions;
    forall id | id in NodeSet(actions)
      ensures layerOf[id] == Layers(actions, planRelevant)[id]
    {
      var a := ById(actions, id);
      var j :| 0 <= j < |actions| && actions[j] == a;
    }
    return Ok(layerOf);
  }

  function Bucket(byLayer: map<int, seq<Action>>, layer: int): seq<Action> {
    if layer in byLayer then byLayer[layer] else []
  }

  ghost predicate Filed(actions: seq<Action>, planRelevant: seq<string>, byLayer: map<int, seq<Action>>) {
    forall l: nat {:trigger Bucket(byLayer, l)} :: Bucket(byLayer, l) == LayerNodes(actions, planRelevant, l)
  }

  lemma FileNext(actions: seq<Action>, planRelevant: seq<string>, byLayer: map<int, seq<Action>>, k: nat, layer: nat)
    requires k < |actions| && Filed(actions[..k], planRelevant, byLayer)
    requires LayerFor(actions[k], planRelevant) == Some(layer)
    ensures Filed(actions[..k + 1], planRelevant, byLayer[layer := Bucket(byLayer, layer) + [actions[k]]])
  {
    var after := byLayer[layer := Bucket(byLayer, layer) + [actions[k]]];
    forall l: nat {:trigger Bucket(after, l)}
      ensures Bucket(after, l) == LayerNodes(actions[..k + 1], planRelevant, l)
    {
      LayerNodesNext(actions, planRelevant, l, k);
      assert Bucket(byLayer, l) == LayerNodes(actions[..k], planRelevant, l);
    }
  }

  method Partition(actions: seq<Action>, planRelevant: seq<string>, layerOf: map<string, int>)
    returns (byLayer: map<int, seq<Action>>)
    requires DistinctIds(actions) && AllPlaced(actions, planRelevant) && layerOf == Layers(actions, planRelevant)
    ensures Filed(actions, planRelevant, byLayer)
  {
    byLayer := map[];
    LayersAt(actions, planRelevant);
    for k := 0 to |actions|
      invariant Filed(actions[..k], planRelevant, byLayer)
    {
      var l := layerOf[actions[k].node];
      FileNext(actions, planRelevant, byLayer, k, l);
      byLayer := byLayer[l := Bucket(byLayer, l) + [actions[k]]];
    }
    assert actions[..|actions|] == actions;
  }

  /** What holds when the layers below `layer` have been sorted. */
  ghost predicate SortedBelow(actions: seq<Action>, planRelevant: seq<string>, order: seq<Action>, layer: nat)
    requires AllPlaced(actions, planRelevant)
  {
    && AllIn(order, actions)
    && GreedyPrefix(DepGraph(actions), Layers(actions, planRelevant), IdsOf(order))
    && PlacedBelow(DepGraph(actions), Layers(actions, planRelevant), IdsOf(order), layer)
    && (forall l: nat :: l < layer ==> Acyclic(LayerGraph(actions, planRelevant, l)))
  }

  lemma EmptyLayer(actions: seq<Action>, planRelevant: seq<string>, order: seq<Action>, layer: nat)
    requires DistinctIds(actions) && AllPlaced(actions, planRelevant) && SortedBelow(actions, planRelevant, order, layer)
    requires LayerNodes(actions, planRelevant, layer) == []
    ensures SortedBelow(actions, planRelevant, order, layer + 1)
  {
    LayerGraphEdges(actions, planRelevant, layer);
    var gl := LayerGraph(actions, planRelevant, layer);
    assert gl.Keys == {};
    TopologicalAcyclic(gl, []);
  }

  lemma LayerRestricts(actions: seq<Action>, planRelevant: seq<string>, layer: nat)
    requires DistinctIds(actions) && AllPlaced(actions, planRelevant)
    ensures DepGraph(actions).Keys <= Layers(actions, planRelevant).Keys
    ensures Restriction(DepGraph(actions), Layers(actions, planRelevant), LayerGraph(actions, planRelevant, layer), layer)
  {
    hide DistinctIds, AllPlaced, LayerGraph;
    LayerGraphEdges(actions, planRelevant, layer);
  }

  lemma NextLayer(actions: seq<Action>, planRelevant: seq<string>, order: seq<Action>, layer: nat, more: seq<Action>)
    requires DistinctIds(actions) && AllPlaced(actions, planRelevant) && SortedBelow(actions, planRelevant, order, layer)
    requires NoForward(actions, Layers(actions, planRelevant))
    requires NodeSet(LayerNodes(actions, planRelevant, layer)) <= Layers(actions, planRelevant).Keys
    requires KahnOutcome(LayerNodes(actions, planRelevant, layer), Layers(actions, planRelevant), Ok(more))
    ensures SortedBelow(actions, planRelevant, order + more, layer + 1)
  {
    hide DistinctIds, NoForward, LayerNodes, GreedyPrefix, NeverUp, Restriction, PlacedBelow, LayerFor, Acyclic, DepGraph, Layers;
    var g, rank := DepGraph(actions), Layers(actions, planRelevant);
    var gl, nodes := LayerGraph(actions, planRelevant, layer), LayerNodes(actions, planRelevant, layer);
    LayerRestricts(actions, planRelevant, layer);
    BatchNeverUp(actions, planRelevant);
    AppendLayer(g, rank, gl, layer, IdsOf(order), IdsOf(more));
    LayerPlaced(g, rank, gl, layer, IdsOf(order), IdsOf(more));
    assert IdsOf(order + more) == IdsOf(order) + IdsOf(more);
    SameNodes(more, nodes);
  }

  lemma FailedLayer(actions: seq<Action>, planRelevant: seq<string>, order: seq<Action>, layer: nat, stuck: seq<string>)
    requires DistinctIds(actions) && AllPlaced(actions, planRelevant) && SortedBelow(actions, planRelevant, order, layer)
    requires NoForward(actions, Layers(actions, planRelevant))
    requires NodeSet(LayerNodes(actions, planRelevant, layer)) <= Layers(actions, planRelevant).Keys
    requires KahnOutcome(LayerNodes(actions, planRelevant, layer), Layers(actions, planRelevant), Err(stuck))
    ensures SortOutcome(actions, planRelevant, Err(CycleAmong(stuck)))
  {
    LayerGraphEdges(actions, planRelevant, layer);
    SubgraphCycle(DepGraph(actions), Layers(actions, planRelevant), LayerGraph(actions, planRelevant, layer), layer);
    assert CyclicLayer(actions, planRelevant, layer, stuck);
  }

  lemma LayerLevel(actions: seq<Action>, planRelevant: seq<string>, layer: nat)
    requires DistinctIds(actions) && AllPlaced(actions, planRelevant)
    ensures DistinctIds(LayerNodes(actions, planRelevant, layer))
    ensures Level(DepGraph(LayerNodes(actions, planRelevant, layer)), Layers(actions, planRelevant))
  {
    LayerNodesDistinct(actions, planRelevant, layer);
    LayerGraphEdges(actions, planRelevant, layer);
  }

  method SortLayers(actions: seq<Action>, planRelevant: seq<string>, layerOf: map<string, int>)
    returns (r: Result<seq<Action>, SortError>)
    requires DistinctIds(actions) && AllPlaced(actions, planRelevant) && layerOf == Layers(actions, planRelevant)
    requires NoForward(actions, layerOf)
    ensures SortOutcome(actions, planRelevant, r)
  {
    var byLayer := Partition(actions, planRelevant, layerOf);
    var ordered: seq<Action> := [];
    var layer: nat := 0;
    assert IdsOf(ordered) == [];
    while layer <= CleanupLayer(planRelevant)
      invariant layer <= CleanupLayer(planRelevant) + 1
      invariant SortedBelow(actions, planRelevant, ordered, layer)
    {
      var nodes := Bucket(byLayer, layer);
      if nodes == [] {
        EmptyLayer(actions, planRelevant, ordered, layer);
      } else {
        LayerLevel(actions, planRelevant, layer);
        var layerOrder := KahnSort(nodes, layerOf);
        if layerOrder.Err? {
          FailedLayer(actions, planRelevant, ordered, layer, layerOrder.error);
          return Err(CycleAmong(layerOrder.error));
        }
        NextLayer(actions, planRelevant, ordered, layer, layerOrder.value);
        ordered := ordered + layerOrder.value;
      }
      layer := layer + 1;
    }
    SortedWhole(actions, planRelevant, ordered);
    return Ok(ordered);
  }

  /** Refuses an unplaced kind, then dependencies on later layers, then cycles; otherwise the one greedy order. */
  method Sort(actions: seq<Action>, planRelevant: seq<string>) returns (r: Result<seq<Action>, SortError>)
    requires DistinctIds(actions)
    ensures SortOutcome(actions, planRelevant, r)
  {
    var layers := AssignLayers(actions, planRelevant);
    if layers.Err? {
      return Err(layers.error);
    }
    var layerOf := layers.value;
    assert forall a :: a in actions ==> a.node in NodeSet(actions);
    var bad := CheckNoForwardLayerDeps(actions, layerOf);
    NoMessages(actions, layerOf);
    assert |bad| == |ForwardMessages(layerOf, actions)|;
    if bad != [] {
      return Err(ForwardDeps(bad));
    }
    r := SortLayers(actions, planRelevant, layerOf);
  }

  /** With every kind placed, permuting the batch changes neither the order nor the refusal. */
  lemma SortCanonicalOutcome(a: seq<Action>, b: seq<Action>, planRelevant: seq<string>,
                             ra: Result<seq<Action>, SortError>, rb: Result<seq<Action>, SortError>)
    requires DistinctIds(a) && DistinctIds(b) && multiset(a) == multiset(b) && AllPlaced(a, planRelevant)
    requires SortOutcome(a, planRelevant, ra) && SortOutcome(b, planRelevant, rb)
    ensures ra == rb
  {
    SameNodes(a, b);
    DepGraphPermute(a, b);
    LayersPermute(a, b, planRelevant);
    var rank := Layers(a, planRelevant);
    if !NoForward(a, rank) {
      FlatMapPermute(ForwardOf(rank), a, b);
      LeqOrdering();
      var ma, mb := ForwardMessages(rank, a), ForwardMessages(rank, b);
      SortCanonical(Leq, ma, mb);
    } else if ra.Ok? {
      SameOrder(a, DepGraph(a), rank, ra.value, rb.value);
    } else {
      var la: nat :| CyclicLayer(a, planRelevant, la, ra.error.nodes);
      var lb: nat :| CyclicLayer(b, planRelevant, lb, rb.error.nodes);
      SameCyclicLayer(a, b, planRelevant, la, ra.error.nodes, lb, rb.error.nodes);
    }
  }

  /** Every rearrangement of the batch comes to the same order or the same refusal. */
  ghost predicate OrderFree(a: seq<Action>, planRelevant: seq<string>) {
    forall b, ra, rb {:trigger SortOutcome(a, planRelevant, ra), SortOutcome(b, planRelevant, rb)} ::
      multiset(b) == multiset(a) && SortOutcome(a, planRelevant, ra) && SortOutcome(b, planRelevant, rb) ==> ra == rb
  }

  ghost predicate Unplaced(a: seq<Action>, planRelevant: seq<string>, x: Action) {
    x in a && LayerFor(x, planRelevant).None?
  }

  /** At most one action is of a kind the profile does not place. */
  ghost predicate OneUnplaced(a: seq<Action>, planRelevant: seq<string>) {
    forall x, y :: Unplaced(a, planRelevant, x) && Unplaced(a, planRelevant, y) ==> x == y
  }

  lemma PermutedIds(a: seq<Action>, b: seq<Action>)
    requires DistinctIds(a) && multiset(a) == multiset(b)
    ensures DistinctIds(b) && forall x :: x in a <==> x in b
  {
    DistinctElements(a);
    NoDuplicatesMultiset(a);
    MultisetNoDuplicates(b);
    assert forall x :: x in a <==> x in multiset(a);
    assert forall x :: x in b <==> x in multiset(b);
    forall i, j | 0 <= i < j < |b|
      ensures b[i].node != b[j].node
    {
      assert b[i] in b && b[j] in b && b[i] != b[j];
    }
  }

  lemma RefusesUnplaced(a: seq<Action>, planRelevant: seq<string>, r: Result<seq<Action>, SortError>) returns (x: Action)
    requires !AllPlaced(a, planRelevant) && SortOutcome(a, planRelevant, r)
    ensures Unplaced(a, planRelevant, x) && r == Err(UnplacedKind(x.node, x.nodeType))
  {
    var i :| 0 <= i < |a| && LayerFor(a[i], planRelevant).None?
             && (forall j :: 0 <= j < i ==> LayerFor(a[j], planRelevant).Some?) && r.error == UnplacedKind(a[i].node, a[i].nodeType);
    x := a[i];
  }

  lemma SomeUnplaced(a: seq<Action>, planRelevant: seq<string>) returns (r: Result<seq<Action>, SortError>)
    requires !AllPlaced(a, planRelevant)
    ensures SortOutcome(a, planRelevant, r)
  {
    hide LayerFor;
    var i := 0;
    while LayerFor(a[i], planRelevant).Some?
      invariant 0 <= i < |a| && forall j :: 0 <= j < i ==> LayerFor(a[j], planRelevant).Some?
      decreases |a| - i
    {
      assert i + 1 < |a|;
      i := i + 1;
    }
    r := Err(UnplacedKind(a[i].node, a[i].nodeType));
    assert FirstUnplaced(a, planRelevant, r.error);
  }

  /** An action put first. */
  lemma PutFirst(a: seq<Action>, x: Action) returns (b: seq<Action>)
    requires x in a
    ensures multiset(b) == multiset(a) && b[0] == x
  {
    var i :| 0 <= i < |a| && a[i] == x;
    b := [x] + (a[..i] + a[i + 1..]);
    assert a == a[..i] + [x] + a[i + 1..];
  }

  /** The outcome of a sort is free of the order of the batch exactly when at most one action is unplaced. */
  lemma SortCanonicalExactly(a: seq<Action>, planRelevant: seq<string>)
    requires DistinctIds(a)
    ensures OrderFree(a, planRelevant) <==> OneUnplaced(a, planRelevant)
  {
    hide SortOutcome, DistinctIds, LayerFor;
    if OneUnplaced(a, planRelevant) {
      forall b, ra, rb | multiset(b) == multiset(a) && SortOutcome(a, planRelevant, ra) && SortOutcome(b, planRelevant, rb)
        ensures ra == rb
      {
        PermutedIds(a, b);
        if AllPlaced(a, planRelevant) {
          SortCanonicalOutcome(a, b, planRelevant, ra, rb);
        } else {
          var x := RefusesUnplaced(a, planRelevant, ra);
          var y := RefusesUnplaced(b, planRelevant, rb);
          assert Unplaced(a, planRelevant, y);
        }
      }
    } else {
      var x, y :| Unplaced(a, planRelevant, x) && Unplaced(a, planRelevant, y) && x != y;
      TwoRefusals(a, planRelevant, x, y);
    }
  }

  lemma TwoRefusals(a: seq<Action>, planRelevant: seq<string>, x: Action, y: Action)
    requires DistinctIds(a) && Unplaced(a, planRelevant, x) && Unplaced(a, planRelevant, y) && x != y
    ensures !OrderFree(a, planRelevant)
  {
    hide LayerFor, DistinctIds;
    DistinctElements(a);
    var ra := SomeUnplaced(a, planRelevant);
    var z := RefusesUnplaced(a, planRelevant, ra);
    var w := if z == x then y else x;
    var b := PutFirst(a, w);
    PermutedIds(a, b);
    var rb := Err(UnplacedKind(w.node, w.nodeType));
    assert FirstUnplaced(b, planRelevant, rb.error);
    assert SortOutcome(b, planRelevant, rb);
  }

  lemma SameOrder(a: seq<Action>, g: Adjacency, rank: map<string, int>, x: seq<Action>, y: seq<Action>)
    requires DistinctIds(a) && multiset(x) == multiset(a) == multiset(y)
    requires g.Keys <= rank.Keys && Greedy(g, rank, IdsOf(x)) && Greedy(g, rank, IdsOf(y))
    ensures x == y
  {
    GreedyUnique(g, rank, IdsOf(x), IdsOf(y));
    SameNodes(x, a);
    SameNodes(y, a);
    assert |x| == |IdsOf(x)| == |IdsOf(y)| == |y|;
    forall i | 0 <= i < |x|
      ensures x[i] == y[i]
    {
      assert IdsOf(x)[i] == IdsOf(y)[i];
      SameId(a, x[i], y[i]);
    }
  }

  lemma LayerGraphPermute(a: seq<Action>, b: seq<Action>, planRelevant: seq<string>, layer: nat)
    requires DistinctIds(a) && DistinctIds(b) && multiset(a) == multiset(b)
    ensures LayerGraph(a, planRelevant, layer) == LayerGraph(b, planRelevant, layer)
  {
    SameNodes(a, b);
    LayerNodesDistinct(a, planRelevant, layer);
    LayerNodesDistinct(b, planRelevant, layer);
    var x, y := LayerNodes(a, planRelevant, layer), LayerNodes(b, planRelevant, layer);
    DistinctElements(x);
    DistinctElements(y);
    SameActions(x, y);
    DepGraphPermute(x, y);
  }

  lemma StuckIsCyclic(g: Adjacency, stuck: seq<string>)
    requires StuckList(g, stuck)
    ensures !Acyclic(g)
  {
    assert stuck[0] in stuck;
    var p :| p != [] && p[0] == stuck[0] && Walk(g, p) && !NoDuplicates(p);
    var i, j :| 0 <= i < j < |p| && p[i] == p[j];
    var c := p[i..j + 1];
    forall k | 0 <= k < |c| - 1
      ensures Step(g, c, k)
    {
      assert Step(g, p, i + k);
    }
    assert Cycle(g, c);
  }

  lemma SameCyclicLayer(a: seq<Action>, b: seq<Action>, planRelevant: seq<string>,
                        la: nat, sa: seq<string>, lb: nat, sb: seq<string>)
    requires DistinctIds(a) && DistinctIds(b) && multiset(a) == multiset(b)
    requires CyclicLayer(a, planRelevant, la, sa) && CyclicLayer(b, planRelevant, lb, sb)
    ensures sa == sb
  {
    LayerGraphPermute(a, b, planRelevant, la);
    LayerGraphPermute(a, b, planRelevant, lb);
    StuckIsCyclic(LayerGraph(a, planRelevant, la), sa);
    StuckIsCyclic(LayerGraph(b, planRelevant, lb), sb);
    AscendingUnique(sa, sb);
  }

  /** A successful sort rearranges the batch so that layers ascend. */
  lemma SortedLayersAscend(actions: seq<Action>, planRelevant: seq<string>, order: seq<Action>)
    requires DistinctIds(actions) && AllPlaced(actions, planRelevant)
    requires NoForward(actions, Layers(actions, planRelevant)) && SortOutcome(actions, planRelevant, Ok(order))
    ensures multiset(order) == multiset(actions) && DistinctIds(order)
    ensures forall i, j :: 0 <= i < j < |order| ==>
              LayerFor(order[i], planRelevant).Some? && LayerFor(order[j], planRelevant).Some? &&
              LayerFor(order[i], planRelevant).value <= LayerFor(order[j], planRelevant).value
  {
    var g, rank, ids := DepGraph(actions), Layers(actions, planRelevant), IdsOf(order);
    SameNodes(order, actions);
    BatchNeverUp(actions, planRelevant);
    LayersAt(actions, planRelevant);
    forall i, j | 0 <= i < j < |order|
      ensures LayerFor(order[i], planRelevant).value <= LayerFor(order[j], planRelevant).value
      ensures order[i].node != order[j].node
    {
      assert order[i] in order && order[j] in order;
      GreedyAscends(g, rank, ids, i, j);
      assert ids[i] != ids[j];
    }
  }

  /** In a successful sort every in-batch dependency comes before its dependent. */
  lemma SortedDepsFirst(actions: seq<Action>, planRelevant: seq<string>, order: seq<Action>)
    requires DistinctIds(actions) && AllPlaced(actions, planRelevant)
    requires NoForward(actions, Layers(actions, planRelevant)) && SortOutcome(actions, planRelevant, Ok(order))
    ensures forall i, d :: 0 <= i < |order| && d in order[i].deps && d in NodeSet(actions) ==> d in IdsOf(order)[..i]
  {
    var g, ids := DepGraph(actions), IdsOf(order);
    SameNodes(order, actions);
    DepGraphEdges(actions);
    forall i, d | 0 <= i < |order| && d in order[i].deps && d in NodeSet(actions)
      ensures d in ids[..i]
    {
      assert order[i] in order;
      KeepMember(order[i].deps, NodeSet(actions));
      assert Edge(g, ids[i], d) && ReadyAt(g, ids, i);
    }
  }

  /** No other topological order of the batch is smaller, layers compared before ids. */
  lemma SortedLeast(actions: seq<Action>, planRelevant: seq<string>, order: seq<Action>, t: seq<string>)
    requires DistinctIds(actions) && AllPlaced(actions, planRelevant)
    requires NoForward(actions, Layers(actions, planRelevant)) && SortOutcome(actions, planRelevant, Ok(order))
    requires Topological(DepGraph(actions), t) && t != IdsOf(order)
    ensures LaterThan(Layers(actions, planRelevant), IdsOf(order), t)
  {
    var k := GreedyLeast(DepGraph(actions), Layers(actions, planRelevant), IdsOf(order), t);
  }

  /** `t` agrees with `order` up to some place and has a later node there. */
  ghost predicate LaterThan(rank: map<string, int>, order: seq<string>, t: seq<string>) {
    exists k :: 0 <= k < |order| && k < |t| && order[..k] == t[..k]
      && order[k] in rank && t[k] in rank && Precedes(rank, order[k], t[k])
  }
}
