/**
 The edges between layers: every create waits for the creates of the nearest layer
 below its own that has any.
 */
module LayerEdges {
  import opened Order
  import opened PlanTypes
  import opened Sorter

  /** j stands in the nearest layer below i's that is not empty; the epic is no layer. */
  predicate FeedsLayer(layers: seq<nat>, j: nat, i: nat)
    requires j < |layers| && i < |layers|
  {
    0 < layers[j] < layers[i] && forall k :: 0 <= k < |layers| ==> !(layers[j] < layers[k] < layers[i])
  }

  /** The op ids a layer edge attaches to create i, among the first n. */
  function LayerEdge(layers: seq<nat>, opIds: seq<string>, i: nat, n: nat): seq<string>
    requires |layers| == |opIds| && i < |layers| && n <= |layers|
  {
    if n == 0 then [] else LayerEdge(layers, opIds, i, n - 1) + if FeedsLayer(layers, n - 1, i) then [opIds[n - 1]] else []
  }

  function LayersOf(sorted: seq<Action>, planRelevant: seq<string>): (r: seq<nat>)
    requires forall a :: a in sorted ==> LayerFor(a, planRelevant).Some?
    ensures |r| == |sorted| && forall i :: 0 <= i < |r| ==> r[i] == LayerFor(sorted[i], planRelevant).value
  {
    seq(|sorted|, i requires 0 <= i < |sorted| => LayerFor(sorted[i], planRelevant).value)
  }

  function EdgesOf(layers: seq<nat>, opIds: seq<string>): (r: seq<seq<string>>)
    requires |layers| == |opIds|
    ensures |r| == |layers| && forall i :: 0 <= i < |r| ==> r[i] == LayerEdge(layers, opIds, i, |layers|)
  {
    seq(|layers|, i requires 0 <= i < |layers| => LayerEdge(layers, opIds, i, |layers|))
  }

  // ---- the pass over the runs ----

  /** A contiguous run of creates of one layer. */
  datatype LayerGroup = LayerGroup(layer: nat, idx: seq<nat>)

  /** Layers never go down along the list. */
  ghost predicate Ascends(layers: seq<nat>) {
    forall i, j :: 0 <= i < j < |layers| ==> layers[i] <= layers[j]
  }

  /** The positions of one layer among the first n. */
  function At(layers: seq<nat>, layer: nat, n: nat): (r: seq<nat>)
    requires n <= |layers|
    ensures forall i: nat :: i in r <==> i < n && layers[i] == layer
  {
    if n == 0 then [] else At(layers, layer, n - 1) + if layers[n - 1] == layer then [n - 1] else []
  }

  lemma NoneAt(layers: seq<nat>, layer: nat, n: nat)
    requires n <= |layers| && forall i :: 0 <= i < n ==> layers[i] != layer
    ensures At(layers, layer, n) == []
  {
    if At(layers, layer, n) != [] {
      assert At(layers, layer, n)[0] in At(layers, layer, n);
    }
  }

  ghost predicate Within(idx: seq<nat>, n: nat) {
    forall k :: 0 <= k < |idx| ==> idx[k] < n
  }

  lemma AtWithin(layers: seq<nat>, layer: nat, n: nat)
    requires n <= |layers|
    ensures Within(At(layers, layer, n), n)
  {
    var r := At(layers, layer, n);
    forall k | 0 <= k < |r|
      ensures r[k] < n
    {
      assert r[k] in r;
    }
  }

  function Pick(opIds: seq<string>, idx: seq<nat>): (r: seq<string>)
    requires Within(idx, |opIds|)
    ensures |r| == |idx| && forall k :: 0 <= k < |r| ==> r[k] == opIds[idx[k]]
  {
    seq(|idx|, k requires 0 <= k < |idx| => opIds[idx[k]])
  }

  ghost predicate Whole(layers: seq<nat>, group: LayerGroup, n: nat)
    requires n <= |layers|
  {
    group.idx != [] && group.idx == At(layers, group.layer, n)
  }

  ghost predicate HasGroup(groups: seq<LayerGroup>, layer: nat) {
    exists g :: 0 <= g < |groups| && groups[g].layer == layer
  }

  ghost predicate GroupsAscend(groups: seq<LayerGroup>) {
    forall g, h :: 0 <= g < h < |groups| ==> groups[g].layer < groups[h].layer
  }

  /** The groups are the layers among the first n positions, ascending, each with all its positions. */
  ghost predicate Grouped(layers: seq<nat>, groups: seq<LayerGroup>, n: nat)
    requires n <= |layers|
  {
    && (forall g :: 0 <= g < |groups| ==> Whole(layers, groups[g], n))
    && GroupsAscend(groups)
    && (forall i :: 0 <= i < n ==> HasGroup(groups, layers[i]))
    && (n > 0 ==> groups != [] && groups[|groups| - 1].layer == layers[n - 1])
    && (n == 0 ==> groups == [])
  }

  lemma NewGroup(layers: seq<nat>, groups: seq<LayerGroup>, n: nat)
    requires n < |layers| && Ascends(layers) && Grouped(layers, groups, n)
    requires groups == [] || groups[|groups| - 1].layer != layers[n]
    ensures Grouped(layers, groups + [LayerGroup(layers[n], [n])], n + 1)
  {
    hide Whole;
    var l, next := layers[n], groups + [LayerGroup(layers[n], [n])];
    forall i | 0 <= i < n
      ensures layers[i] != l
    {
      assert layers[i] <= layers[n - 1] <= layers[n];
    }
    NoneAt(layers, l, n);
    assert next[|groups|].layer == layers[n];
    NewWhole(layers, n);
    GroupsCover(groups, next, layers, n);
    forall g | 0 <= g < |groups|
      ensures groups[g].layer < l && Whole(layers, groups[g], n + 1)
    {
      OldGroup(layers, groups, n, g);
    }
  }

  lemma NewWhole(layers: seq<nat>, n: nat)
    requires n < |layers| && At(layers, layers[n], n) == []
    ensures Whole(layers, LayerGroup(layers[n], [n]), n + 1)
  {
  }

  lemma OldGroup(layers: seq<nat>, groups: seq<LayerGroup>, n: nat, g: nat)
    requires n < |layers| && Ascends(layers) && Grouped(layers, groups, n) && g < |groups|
    requires groups[|groups| - 1].layer != layers[n]
    ensures groups[g].layer < layers[n] && Whole(layers, groups[g], n + 1)
  {
    assert Whole(layers, groups[g], n);
    assert groups[g].layer <= groups[|groups| - 1].layer;
    assert layers[n - 1] <= layers[n];
  }

  lemma GroupsCover(groups: seq<LayerGroup>, next: seq<LayerGroup>, layers: seq<nat>, n: nat)
    requires n < |layers| && |groups| <= |next| && HasGroup(next, layers[n])
    requires forall g :: 0 <= g < |groups| ==> next[g].layer == groups[g].layer
    requires forall i :: 0 <= i < n ==> HasGroup(groups, layers[i])
    ensures forall i :: 0 <= i < n + 1 ==> HasGroup(next, layers[i])
  {
    forall i | 0 <= i < n
      ensures HasGroup(next, layers[i])
    {
      var g :| 0 <= g < |groups| && groups[g].layer == layers[i];
      assert next[g].layer == layers[i];
    }
  }

  lemma GrowGroup(layers: seq<nat>, groups: seq<LayerGroup>, n: nat)
    requires n < |layers| && Ascends(layers) && Grouped(layers, groups, n)
    requires groups != [] && groups[|groups| - 1].layer == layers[n]
    ensures var last := groups[|groups| - 1];
            Grouped(layers, groups[|groups| - 1 := last.(idx := last.idx + [n])], n + 1)
  {
    var m := |groups| - 1;
    var next := groups[m := groups[m].(idx := groups[m].idx + [n])];
    assert next[m].layer == layers[n];
    GroupsCover(groups, next, layers, n);
    forall g | 0 <= g < |next|
      ensures Whole(layers, next[g], n + 1)
    {
      assert Whole(layers, groups[g], n);
      assert g < m ==> groups[g].layer < groups[m].layer;
    }
  }

  method GroupLayers(layers: seq<nat>) returns (groups: seq<LayerGroup>)
    requires Ascends(layers)
    ensures Grouped(layers, groups, |layers|)
  {
    hide Grouped, Ascends;
    groups := [];
    NoGroups(layers);
    for i := 0 to |layers|
      invariant Grouped(layers, groups, i)
    {
      var l := layers[i];
      if |groups| == 0 || groups[|groups| - 1].layer != l {
        NewGroup(layers, groups, i);
        groups := groups + [LayerGroup(l, [i])];
      } else {
        GrowGroup(layers, groups, i);
        var last := groups[|groups| - 1];
        groups := groups[|groups| - 1 := last.(idx := last.idx + [i])];
      }
    }
  }

  lemma NoGroups(layers: seq<nat>)
    ensures Grouped(layers, [], 0)
  {
  }

  ghost predicate FedBy(layers: seq<nat>, i: nat, below: nat)
    requires i < |layers|
  {
    forall j :: 0 <= j < |layers| ==> (FeedsLayer(layers, j, i) <==> layers[j] == below)
  }

  lemma {:induction false} EdgeIsGroup(layers: seq<nat>, opIds: seq<string>, i: nat, below: nat, n: nat)
    requires |layers| == |opIds| && i < |layers| && n <= |layers|
    requires FedBy(layers, i, below)
    ensures Within(At(layers, below, n), n) && LayerEdge(layers, opIds, i, n) == Pick(opIds, At(layers, below, n))
  {
    hide FeedsLayer;
    AtWithin(layers, below, n);
    if n > 0 {
      EdgeIsGroup(layers, opIds, i, below, n - 1);
    }
  }

  lemma {:induction false} NoEdge(layers: seq<nat>, opIds: seq<string>, i: nat, n: nat)
    requires |layers| == |opIds| && i < |layers| && n <= |layers|
    requires forall j :: 0 <= j < |layers| ==> !FeedsLayer(layers, j, i)
    ensures LayerEdge(layers, opIds, i, n) == []
  {
    if n > 0 {
      NoEdge(layers, opIds, i, n - 1);
    }
  }

  /** The op ids of the group before g; the epic's group is none. */
  function Previous(groups: seq<LayerGroup>, opIds: seq<string>, g: nat): seq<string>
    requires g <= |groups| && (g > 0 ==> Within(groups[g - 1].idx, |opIds|))
  {
    if g == 0 || groups[g - 1].layer == 0 then [] else Pick(opIds, groups[g - 1].idx)
  }

  lemma GroupWithin(layers: seq<nat>, groups: seq<LayerGroup>, g: nat)
    requires Grouped(layers, groups, |layers|) && g < |groups|
    ensures Within(groups[g].idx, |layers|)
    ensures forall i: nat :: i in groups[g].idx <==> i < |layers| && layers[i] == groups[g].layer
  {
    assert Whole(layers, groups[g], |layers|);
    AtWithin(layers, groups[g].layer, |layers|);
  }

  /** No layer of the list lies strictly between two neighbouring groups. */
  lemma Neighbours(layers: seq<nat>, groups: seq<LayerGroup>, g: nat, k: nat)
    requires Grouped(layers, groups, |layers|) && 0 < g < |groups| && k < |layers|
    ensures !(groups[g - 1].layer < layers[k] < groups[g].layer)
  {
    assert HasGroup(groups, layers[k]);
    var m :| 0 <= m < |groups| && groups[m].layer == layers[k];
    assert m < g - 1 ==> groups[m].layer < groups[g - 1].layer;
    assert m > g ==> groups[g].layer < groups[m].layer;
  }

  lemma FirstGroup(layers: seq<nat>, groups: seq<LayerGroup>, k: nat)
    requires Grouped(layers, groups, |layers|) && k < |layers|
    ensures groups != [] && groups[0].layer <= layers[k]
  {
    assert HasGroup(groups, layers[k]);
  }

  lemma GroupFedBy(layers: seq<nat>, groups: seq<LayerGroup>, g: nat, i: nat)
    requires Grouped(layers, groups, |layers|) && 0 < g < |groups| && i < |layers| && layers[i] == groups[g].layer
    requires groups[g - 1].layer > 0
    ensures FedBy(layers, i, groups[g - 1].layer)
  {
    var below := groups[g - 1].layer;
    GroupWithin(layers, groups, g - 1);
    var w := groups[g - 1].idx[0];
    assert w in groups[g - 1].idx;
    assert below < layers[i];
    forall j | 0 <= j < |layers|
      ensures FeedsLayer(layers, j, i) <==> layers[j] == below
    {
      Neighbours(layers, groups, g, j);
      forall k | 0 <= k < |layers|
        ensures !(below < layers[k] < layers[i])
      {
        Neighbours(layers, groups, g, k);
      }
      assert layers[w] == below;
    }
  }

  lemma GroupUnfed(layers: seq<nat>, groups: seq<LayerGroup>, g: nat, i: nat, j: nat)
    requires Grouped(layers, groups, |layers|) && g < |groups| && i < |layers| && layers[i] == groups[g].layer && j < |layers|
    requires g == 0 || groups[g - 1].layer == 0 || groups[g].layer == 0
    ensures !FeedsLayer(layers, j, i)
  {
    FirstGroup(layers, groups, j);
    if g > 0 {
      Neighbours(layers, groups, g, j);
    }
  }

  /** Every create of a group is fed by exactly the group before it. */
  lemma GroupEdge(layers: seq<nat>, opIds: seq<string>, groups: seq<LayerGroup>, g: nat, i: nat)
    requires |layers| == |opIds| && Grouped(layers, groups, |layers|) && g < |groups| && i < |layers|
    requires layers[i] == groups[g].layer
    ensures g > 0 ==> Within(groups[g - 1].idx, |opIds|)
    ensures LayerEdge(layers, opIds, i, |layers|) == if groups[g].layer == 0 then [] else Previous(groups, opIds, g)
  {
    hide FeedsLayer;
    if g > 0 {
      GroupWithin(layers, groups, g - 1);
      assert Whole(layers, groups[g - 1], |layers|);
    }
    if g == 0 || groups[g - 1].layer == 0 || groups[g].layer == 0 {
      forall j | 0 <= j < |layers|
        ensures !FeedsLayer(layers, j, i)
      {
        GroupUnfed(layers, groups, g, i, j);
      }
      NoEdge(layers, opIds, i, |layers|);
    } else {
      GroupFedBy(layers, groups, g, i);
      EdgeIsGroup(layers, opIds, i, groups[g - 1].layer, |layers|);
    }
  }

  method SetAll(edges: seq<seq<string>>, idx: seq<nat>, v: seq<string>) returns (r: seq<seq<string>>)
    requires Within(idx, |edges|)
    ensures |r| == |edges| && forall i: nat :: i < |r| ==> r[i] == if i in idx then v else edges[i]
  {
    r := edges;
    for k := 0 to |idx|
      invariant |r| == |edges| && forall i: nat :: i < |r| ==> r[i] == if i in idx[..k] then v else edges[i]
    {
      assert idx[..k + 1] == idx[..k] + [idx[k]];
      r := r[idx[k] := v];
    }
    assert idx[..|idx|] == idx;
  }

  /** The edges of the groups before g are in place. */
  ghost predicate Filled(layers: seq<nat>, opIds: seq<string>, groups: seq<LayerGroup>, edges: seq<seq<string>>, g: nat)
    requires |layers| == |opIds| && g <= |groups|
  {
    |edges| == |layers| &&
    forall i :: 0 <= i < |layers| ==>
      edges[i] == if HasGroup(groups[..g], layers[i]) then LayerEdge(layers, opIds, i, |layers|) else []
  }

  lemma HasGroupNext(groups: seq<LayerGroup>, g: nat, layer: nat)
    requires g < |groups|
    ensures HasGroup(groups[..g + 1], layer) <==> HasGroup(groups[..g], layer) || groups[g].layer == layer
  {
    assert groups[..g + 1] == groups[..g] + [groups[g]];
    if HasGroup(groups[..g], layer) {
      var h :| 0 <= h < g && groups[..g][h].layer == layer;
      assert groups[..g + 1][h].layer == layer;
    }
    if groups[g].layer == layer {
      assert groups[..g + 1][g].layer == layer;
    }
  }

  lemma FillGroup(layers: seq<nat>, opIds: seq<string>, groups: seq<LayerGroup>, edges: seq<seq<string>>, g: nat, next: seq<seq<string>>)
    requires |layers| == |opIds| && Grouped(layers, groups, |layers|) && g < |groups| && Filled(layers, opIds, groups, edges, g)
    requires g > 0 ==> Within(groups[g - 1].idx, |opIds|)
    requires |next| == |edges|
    requires forall i: nat :: i < |next| ==>
               next[i] == if i in groups[g].idx && groups[g].layer != 0 then Previous(groups, opIds, g) else edges[i]
    ensures Filled(layers, opIds, groups, next, g + 1)
  {
    hide HasGroup, Previous, Grouped;
    GroupWithin(layers, groups, g);
    forall i: nat | i < |layers|
      ensures next[i] == if HasGroup(groups[..g + 1], layers[i]) then LayerEdge(layers, opIds, i, |layers|) else []
    {
      HasGroupNext(groups, g, layers[i]);
      if layers[i] == groups[g].layer {
        NotYet(layers, groups, g);
        GroupEdge(layers, opIds, groups, g, i);
      }
    }
  }

  lemma NotYet(layers: seq<nat>, groups: seq<LayerGroup>, g: nat)
    requires Grouped(layers, groups, |layers|) && g < |groups|
    ensures !HasGroup(groups[..g], groups[g].layer)
  {
    forall h | 0 <= h < g
      ensures groups[..g][h].layer != groups[g].layer
    {
      assert groups[h].layer < groups[g].layer;
    }
  }

  method FillEdges(layers: seq<nat>, opIds: seq<string>, groups: seq<LayerGroup>) returns (edges: seq<seq<string>>)
    requires |layers| == |opIds| && Grouped(layers, groups, |layers|)
    ensures edges == EdgesOf(layers, opIds)
  {
    hide FeedsLayer, Grouped, Filled;
    edges := seq(|layers|, i => []);
    var prev: seq<string> := [];
    NoneFilled(layers, opIds, groups, edges);
    for g := 0 to |groups|
      invariant |edges| == |layers| && Filled(layers, opIds, groups, edges, g)
      invariant (g > 0 ==> Within(groups[g - 1].idx, |opIds|)) && prev == Previous(groups, opIds, g)
    {
      ghost var was, before := edges, prev;
      GroupWithin(layers, groups, g);
      if groups[g].layer != 0 {
        edges := SetAll(edges, groups[g].idx, prev);
        prev := Pick(opIds, groups[g].idx);
      } else {
        EpicFirst(layers, groups, g);
      }
      FillGroup(layers, opIds, groups, was, g, edges);
    }
    AllFilled(layers, opIds, groups, edges);
  }

  lemma EpicFirst(layers: seq<nat>, groups: seq<LayerGroup>, g: nat)
    requires Grouped(layers, groups, |layers|) && g < |groups|
    ensures g > 0 ==> groups[g].layer > 0
  {
    assert g > 0 ==> groups[0].layer < groups[g].layer;
  }

  lemma NoneFilled(layers: seq<nat>, opIds: seq<string>, groups: seq<LayerGroup>, edges: seq<seq<string>>)
    requires |layers| == |opIds| == |edges| && forall i :: 0 <= i < |edges| ==> edges[i] == []
    ensures Filled(layers, opIds, groups, edges, 0)
  {
  }

  lemma AllFilled(layers: seq<nat>, opIds: seq<string>, groups: seq<LayerGroup>, edges: seq<seq<string>>)
    requires |layers| == |opIds| && Grouped(layers, groups, |layers|) && Filled(layers, opIds, groups, edges, |groups|)
    ensures edges == EdgesOf(layers, opIds)
  {
    assert groups[..|groups|] == groups;
  }

  /** Every create of the layer below feeds the next one, found by one pass over the runs. */
  method LayerEdgesFor(sorted: seq<Action>, opIds: seq<string>, planRelevant: seq<string>)
    returns (r: seq<seq<string>>)
    requires AllPlaced(sorted, planRelevant) && |opIds| == |sorted| && Ascends(LayersOf(sorted, planRelevant))
    ensures r == EdgesOf(LayersOf(sorted, planRelevant), opIds)
  {
    var layers := LayersOf(sorted, planRelevant);
    var groups := GroupLayers(layers);
    r := FillEdges(layers, opIds, groups);
  }

  // ---- the barrier ----

  lemma {:induction false} EdgeMember(layers: seq<nat>, opIds: seq<string>, i: nat, j: nat, n: nat)
    requires |layers| == |opIds| && i < |layers| && j < n <= |layers| && FeedsLayer(layers, j, i)
    ensures opIds[j] in LayerEdge(layers, opIds, i, n)
  {
    if j < n - 1 {
      EdgeMember(layers, opIds, i, j, n - 1);
    }
  }

  lemma {:induction false} EdgeSource(layers: seq<nat>, opIds: seq<string>, i: nat, n: nat, id: string)
    requires |layers| == |opIds| && i < |layers| && n <= |layers| && id in LayerEdge(layers, opIds, i, n)
    ensures exists j :: 0 <= j < n && FeedsLayer(layers, j, i) && id == opIds[j]
  {
    assert n > 0;
    if id in LayerEdge(layers, opIds, i, n - 1) {
      EdgeSource(layers, opIds, i, n - 1, id);
    } else {
      assert FeedsLayer(layers, n - 1, i);
    }
  }

  /** Some create feeds i from a layer at least as high as j's. */
  lemma FeederAbove(layers: seq<nat>, j: nat, i: nat) returns (k: nat)
    requires j < |layers| && i < |layers| && 0 < layers[j] < layers[i]
    ensures k < |layers| && FeedsLayer(layers, k, i) && layers[j] <= layers[k]
  {
    k := j;
    for n := 0 to |layers|
      invariant k < |layers| && layers[j] <= layers[k] < layers[i]
      invariant forall m :: 0 <= m < n ==> !(layers[k] < layers[m] < layers[i])
    {
      if layers[k] < layers[n] < layers[i] {
        k := n;
      }
    }
  }
}
