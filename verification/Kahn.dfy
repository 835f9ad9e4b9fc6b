/**
 One layer of the topological sorter: Kahn's algorithm, taking the smallest id
 among the nodes that are ready at each step.
 */
module Kahn {
  import opened Results
  import opened Order
  import opened Graph
  import opened Topology
  import opened PlanTypes

  /** The entries of `s` that belong to `ids`, repeats kept. */
  function Keep(s: seq<string>, ids: set<string>): seq<string> {
    if s == [] then
      []
    else
      Keep(s[..|s| - 1], ids) + if s[|s| - 1] in ids then [s[|s| - 1]] else []
  }

  lemma {:induction false} KeepMember(s: seq<string>, ids: set<string>)
    ensures forall d :: d in Keep(s, ids) <==> d in s && d in ids
  {
    if s != [] {
      assert s == s[..|s| - 1] + [s[|s| - 1]];
      KeepMember(s[..|s| - 1], ids);
    }
  }

  lemma KeepNext(s: seq<string>, ids: set<string>, k: nat)
    requires k < |s|
    ensures Keep(s[..k + 1], ids) == Keep(s[..k], ids) + if s[k] in ids then [s[k]] else []
  {
    assert s[..k + 1][..k] == s[..k];
  }

  /** Dropping one id from consideration removes exactly its occurrences. */
  lemma {:induction false} KeepWithout(s: seq<string>, ids: set<string>, x: string)
    requires x in ids
    ensures |Keep(s, ids)| == |Keep(s, ids - {x})| + multiset(s)[x]
  {
    if s != [] {
      assert s == s[..|s| - 1] + [s[|s| - 1]];
      KeepWithout(s[..|s| - 1], ids, x);
    }
  }

  lemma {:induction false} KeepAll(s: seq<string>, ids: set<string>)
    requires forall d :: d in s ==> d in ids
    ensures Keep(s, ids) == s
  {
    if s != [] {
      assert s == s[..|s| - 1] + [s[|s| - 1]];
      KeepAll(s[..|s| - 1], ids);
    }
  }

  ghost function ById(nodes: seq<Action>, id: string): (a: Action)
    requires id in NodeSet(nodes)
    ensures a in nodes && a.node == id
  {
    var a :| a in nodes && a.node == id;
    a
  }

  /** What each action of the batch depends on within the batch. */
  ghost function DepGraph(nodes: seq<Action>): (g: Adjacency)
    ensures g.Keys == NodeSet(nodes)
  {
    map id | id in NodeSet(nodes) :: Keep(ById(nodes, id).deps, NodeSet(nodes))
  }

  lemma DepGraphEdges(nodes: seq<Action>)
    requires DistinctIds(nodes)
    ensures Contained(DepGraph(nodes))
    ensures forall a :: a in nodes ==> DepGraph(nodes)[a.node] == Keep(a.deps, NodeSet(nodes))
  {
    DistinctElements(nodes);
    var g := DepGraph(nodes);
    forall a | a in nodes
      ensures g[a.node] == Keep(a.deps, NodeSet(nodes))
    {
      assert a.node in NodeSet(nodes);
    }
    forall x, d | Edge(g, x, d)
      ensures d in g
    {
      KeepMember(ById(nodes, x).deps, NodeSet(nodes));
    }
  }

  lemma SameNodes(a: seq<Action>, b: seq<Action>)
    requires multiset(a) == multiset(b)
    ensures forall x :: x in a <==> x in b
    ensures NodeSet(a) == NodeSet(b)
  {
    assert forall x :: x in a <==> x in multiset(a);
    assert forall x :: x in b <==> x in multiset(b);
  }

  lemma DepGraphPermute(a: seq<Action>, b: seq<Action>)
    requires DistinctIds(a) && DistinctIds(b) && multiset(a) == multiset(b)
    ensures DepGraph(a) == DepGraph(b)
  {
    SameNodes(a, b);
    var ga, gb := DepGraph(a), DepGraph(b);
    forall id | id in ga
      ensures id in gb && ga[id] == gb[id]
    {
      var x, y := ById(a, id), ById(b, id);
      SameId(b, x, y);
    }
    assert ga.Keys == gb.Keys;
  }

  lemma SameId(s: seq<Action>, x: Action, y: Action)
    requires DistinctIds(s) && x in s && y in s && x.node == y.node
    ensures x == y
  {
    DistinctElements(s);
  }

  // ---- the tables ----

  ghost function Occurrences(children: map<string, seq<string>>, d: string, n: string): nat {
    if d in children then multiset(children[d])[n] else 0
  }

  ghost function Listed(g: Adjacency, n: string, d: string): nat {
    if n in g then multiset(g[n])[d] else 0
  }

  ghost predicate ChildrenOf(g: Adjacency, children: map<string, seq<string>>) {
    forall d, n {:trigger Occurrences(children, d, n)} :: Occurrences(children, d, n) == Listed(g, n, d)
  }

  ghost predicate CountsOf(g: Adjacency, indegree: map<string, nat>) {
    forall n :: n in indegree ==> indegree[n] == if n in g then |g[n]| else 0
  }

  lemma AddEdge(g: Adjacency, children: map<string, seq<string>>, indegree: map<string, nat>,
                n: string, ds: seq<string>, d: string)
    requires ChildrenOf(g[n := ds], children) && CountsOf(g[n := ds], indegree) && n in indegree
    ensures ChildrenOf(g[n := ds + [d]],
                       children[d := (if d in children then children[d] else []) + [n]])
    ensures CountsOf(g[n := ds + [d]], indegree[n := indegree[n] + 1])
  {
    var g0, g1 := g[n := ds], g[n := ds + [d]];
    var children' := children[d := (if d in children then children[d] else []) + [n]];
    forall e, m {:trigger Occurrences(children', e, m)}
      ensures Occurrences(children', e, m) == Listed(g1, m, e)
    {
      assert Occurrences(children, e, m) == Listed(g0, m, e);
    }
  }

  /** Registers one action's in-layer dependencies, in list order. */
  method AddDeps(n: Action, inLayer: set<string>, children0: map<string, seq<string>>, indegree0: map<string, nat>,
                 ghost g: Adjacency)
    returns (children: map<string, seq<string>>, indegree: map<string, nat>)
    requires n.node in inLayer && indegree0.Keys == inLayer
    requires ChildrenOf(g[n.node := []], children0) && CountsOf(g[n.node := []], indegree0)
    ensures indegree.Keys == inLayer
    ensures ChildrenOf(g[n.node := Keep(n.deps, inLayer)], children)
    ensures CountsOf(g[n.node := Keep(n.deps, inLayer)], indegree)
  {
    children, indegree := children0, indegree0;
    var j := 0;
    while j < |n.deps|
      invariant j <= |n.deps| && indegree.Keys == inLayer
      invariant ChildrenOf(g[n.node := Keep(n.deps[..j], inLayer)], children)
      invariant CountsOf(g[n.node := Keep(n.deps[..j], inLayer)], indegree)
    {
      KeepNext(n.deps, inLayer, j);
      var dep := n.deps[j];
      if dep in inLayer {
        AddEdge(g, children, indegree, n.node, Keep(n.deps[..j], inLayer), dep);
        children := children[dep := (if dep in children then children[dep] else []) + [n.node]];
        indegree := indegree[n.node := indegree[n.node] + 1];
      }
      j := j + 1;
    }
    assert n.deps[..j] == n.deps;
  }

  method BuildEdges(nodes: seq<Action>, inLayer: set<string>)
    returns (children: map<string, seq<string>>, indegree: map<string, nat>)
    requires DistinctIds(nodes) && inLayer == NodeSet(nodes)
    ensures indegree.Keys == inLayer
    ensures ChildrenOf(DepGraph(nodes), children) && CountsOf(DepGraph(nodes), indegree)
  {
    children := map[];
    indegree := map id | id in inLayer :: 0;
    ghost var built: Adjacency := map[];
    var k := 0;
    while k < |nodes|
      invariant k <= |nodes| && indegree.Keys == inLayer
      invariant ChildrenOf(built, children) && CountsOf(built, indegree)
      invariant BuiltUpTo(nodes, k, built)
    {
      assert nodes[k] in nodes;
      FreshNode(nodes, k, built, children);
      children, indegree := AddDeps(nodes[k], inLayer, children, indegree, built);
      NodeBuilt(nodes, k, built);
      built := built[nodes[k].node := Keep(nodes[k].deps, inLayer)];
      k := k + 1;
    }
    AllBuilt(nodes, built);
  }

  ghost predicate BuiltUpTo(nodes: seq<Action>, k: nat, built: Adjacency)
    requires k <= |nodes|
  {
    && built.Keys == NodeSet(nodes[..k])
    && (forall a :: a in nodes[..k] ==> built[a.node] == Keep(a.deps, NodeSet(nodes)))
  }

  lemma FreshNode(nodes: seq<Action>, k: nat, built: Adjacency, children: map<string, seq<string>>)
    requires DistinctIds(nodes) && k < |nodes| && BuiltUpTo(nodes, k, built) && ChildrenOf(built, children)
    ensures nodes[k].node !in built && ChildrenOf(built[nodes[k].node := []], children)
  {
    var wider := built[nodes[k].node := []];
    forall d, n {:trigger Occurrences(children, d, n)}
      ensures Occurrences(children, d, n) == Listed(wider, n, d)
    {
    }
  }

  lemma NodeBuilt(nodes: seq<Action>, k: nat, built: Adjacency)
    requires DistinctIds(nodes) && k < |nodes| && BuiltUpTo(nodes, k, built)
    ensures BuiltUpTo(nodes, k + 1, built[nodes[k].node := Keep(nodes[k].deps, NodeSet(nodes))])
  {
    assert nodes[..k + 1] == nodes[..k] + [nodes[k]];
    assert NodeSet(nodes[..k + 1]) == NodeSet(nodes[..k]) + {nodes[k].node};
  }

  lemma AllBuilt(nodes: seq<Action>, built: Adjacency)
    requires DistinctIds(nodes) && BuiltUpTo(nodes, |nodes|, built)
    ensures built == DepGraph(nodes)
  {
    assert nodes[..|nodes|] == nodes;
    DepGraphEdges(nodes);
    forall id | id in NodeSet(nodes)
      ensures built[id] == DepGraph(nodes)[id]
    {
      var a := ById(nodes, id);
    }
  }

  // ---- the ready list ----

  /** The first position whose entry is not below x. */
  function SearchStrings(s: seq<string>, x: string): (i: nat)
    requires Ascending(s)
    ensures i <= |s|
    ensures forall j :: 0 <= j < i ==> Less(s[j], x)
    ensures forall j :: i <= j < |s| ==> !Less(s[j], x)
  {
    if s == [] then
      0
    else if Less(s[0], x) then
      var rest := SearchStrings(s[1..], x);
      rest + 1
    else
      assert forall j :: 0 <= j < |s| ==> !Less(s[j], x) by {
        forall j | 0 <= j < |s|
          ensures !Less(s[j], x)
        {
          NotBelow(s[0], s[j], x);
        }
      }
      0
  }

  lemma NotBelow(a: string, b: string, x: string)
    requires !Less(a, x) && (a == b || Less(a, b))
    ensures !Less(b, x)
  {
    if Less(a, b) && Less(b, x) {
      LessTransitive(a, b, x);
    }
  }

  lemma InsertAscending(s: seq<string>, x: string)
    requires Ascending(s) && x !in s
    ensures var i := SearchStrings(s, x); Ascending(s[..i] + [x] + s[i..])
    ensures var i := SearchStrings(s, x); forall y :: y in s[..i] + [x] + s[i..] <==> y == x || y in s
  {
    var i := SearchStrings(s, x);
    var r := s[..i] + [x] + s[i..];
    assert s == s[..i] + s[i..];
    forall j, k | 0 <= j < k < |r|
      ensures Less(r[j], r[k])
    {
      if j == i {
        LessTotal(x, s[k - 1]);
      }
    }
  }

  // ---- the loop ----

  ghost predicate Pending(g: Adjacency, rest: set<string>, indegree: map<string, nat>) {
    indegree.Keys == g.Keys && forall n :: n in g ==> indegree[n] == |Keep(g[n], rest)|
  }

  ghost predicate ReadyList(g: Adjacency, rest: set<string>, indegree: map<string, nat>, ready: seq<string>)
    requires indegree.Keys == g.Keys
  {
    Ascending(ready) && forall x :: x in ready <==> x in rest && x in g && indegree[x] == 0
  }

  ghost predicate PartlyReleased(g: Adjacency, rest: set<string>, indegree: map<string, nat>, released: seq<string>) {
    indegree.Keys == g.Keys && forall n :: n in g ==> indegree[n] + multiset(released)[n] == |Keep(g[n], rest)|
  }

  /** `kids` lists every node once for each time it names `next` as a dependency. */
  ghost predicate KidsOf(g: Adjacency, kids: seq<string>, next: string) {
    forall n {:trigger Listed(g, n, next)} :: multiset(kids)[n] == Listed(g, n, next)
  }

  /** Nodes already emitted wait for nothing. */
  ghost predicate Drained(g: Adjacency, rest: set<string>) {
    forall n :: n in g && n !in rest ==> |Keep(g[n], rest)| == 0
  }

  lemma ReleaseAll(g: Adjacency, rest: set<string>, indegree: map<string, nat>, kids: seq<string>, next: string)
    requires PartlyReleased(g, rest, indegree, kids) && next in rest
    requires KidsOf(g, kids, next)
    ensures Pending(g, rest - {next}, indegree)
  {
    forall n | n in g
      ensures indegree[n] == |Keep(g[n], rest - {next})|
    {
      KeepWithout(g[n], rest, next);
      assert multiset(kids)[n] == Listed(g, n, next);
    }
  }

  lemma ChildWaits(g: Adjacency, rest: set<string>, indegree: map<string, nat>, kids: seq<string>, j: nat, next: string)
    requires j < |kids| && PartlyReleased(g, rest, indegree, kids[..j]) && next in rest && next in g
    requires KidsOf(g, kids, next)
    requires Drained(g, rest) && |Keep(g[next], rest)| == 0
    ensures kids[j] in g && kids[j] in rest - {next} && indegree[kids[j]] > 0
  {
    var c := kids[j];
    assert kids == kids[..j] + [c] + kids[j + 1..];
    assert multiset(kids) == multiset(kids[..j]) + multiset{c} + multiset(kids[j + 1..]);
    assert multiset(kids)[c] == Listed(g, c, next);
    assert c in g;
    KeepWithout(g[c], rest, next);
  }

  lemma CountOff(g: Adjacency, rest: set<string>, indegree: map<string, nat>, released: seq<string>,
                 ready: seq<string>, open: set<string>, child: string)
    requires PartlyReleased(g, rest, indegree, released) && ReadyList(g, open, indegree, ready)
    requires child in g && child in open && indegree[child] > 0
    ensures PartlyReleased(g, rest, indegree[child := indegree[child] - 1], released + [child])
    ensures var i := SearchStrings(ready, child);
            ReadyList(g, open, indegree[child := indegree[child] - 1],
                      if indegree[child] == 1 then ready[..i] + [child] + ready[i..] else ready)
  {
    assert child !in ready;
    InsertAscending(ready, child);
  }

  /** Counts one dependency off `child`; it joins the ready list when that was the last. */
  method CountOffChild(indegree0: map<string, nat>, ready0: seq<string>, child: string,
                       ghost g: Adjacency, ghost rest: set<string>, ghost released: seq<string>, ghost open: set<string>)
    returns (indegree: map<string, nat>, ready: seq<string>)
    requires PartlyReleased(g, rest, indegree0, released) && ReadyList(g, open, indegree0, ready0)
    requires child in g && child in open && indegree0[child] > 0
    ensures PartlyReleased(g, rest, indegree, released + [child]) && ReadyList(g, open, indegree, ready)
  {
    CountOff(g, rest, indegree0, released, ready0, open, child);
    indegree, ready := indegree0[child := indegree0[child] - 1], ready0;
    if indegree[child] == 0 {
      var i := SearchStrings(ready, child);
      ready := ready[..i] + [child] + ready[i..];
    }
  }

  /** Counts `next` off the nodes waiting for it and files those that become ready. */
  method ReleaseChildren(kids: seq<string>, next: string, indegree0: map<string, nat>, ready0: seq<string>,
                         ghost g: Adjacency, ghost rest: set<string>)
    returns (indegree: map<string, nat>, ready: seq<string>)
    requires next in rest && next in g && Pending(g, rest, indegree0) && Drained(g, rest) && indegree0[next] == 0
    requires KidsOf(g, kids, next)
    requires ReadyList(g, rest - {next}, indegree0, ready0)
    ensures Pending(g, rest - {next}, indegree) && ReadyList(g, rest - {next}, indegree, ready)
  {
    indegree, ready := indegree0, ready0;
    var j := 0;
    while j < |kids|
      invariant j <= |kids|
      invariant PartlyReleased(g, rest, indegree, kids[..j])
      invariant ReadyList(g, rest - {next}, indegree, ready)
    {
      ChildWaits(g, rest, indegree, kids, j, next);
      assert kids[..j + 1] == kids[..j] + [kids[j]];
      indegree, ready := CountOffChild(indegree, ready, kids[j], g, rest, kids[..j], rest - {next});
      j := j + 1;
    }
    assert kids[..j] == kids;
    ReleaseAll(g, rest, indegree, kids, next);
  }

  lemma KeepEmpty(s: seq<string>, ids: set<string>)
    ensures |Keep(s, ids)| == 0 <==> forall d :: d in s ==> d !in ids
  {
    KeepMember(s, ids);
    var r := Keep(s, ids);
    if |r| > 0 {
      assert r[0] in r;
    }
  }

  ghost function Remaining(g: Adjacency, placed: seq<string>): set<string> {
    set x | x in g && x !in placed
  }

  /** A count of zero is what it means to be ready. */
  lemma CountsDecide(g: Adjacency, placed: seq<string>, indegree: map<string, nat>)
    requires Contained(g) && Pending(g, Remaining(g, placed), indegree)
    ensures forall x :: Ready(g, placed, x) <==> x in Remaining(g, placed) && indegree[x] == 0
  {
    forall x | x in g
      ensures indegree[x] == 0 <==> forall d :: Edge(g, x, d) ==> d in placed
    {
      KeepEmpty(g[x], Remaining(g, placed));
    }
  }

  lemma PlacedDrained(g: Adjacency, placed: seq<string>)
    requires Contained(g) && Partial(g, placed)
    ensures Drained(g, Remaining(g, placed))
  {
    var rest := Remaining(g, placed);
    forall n | n in g && n !in rest
      ensures |Keep(g[n], rest)| == 0
    {
      var i := IndexIn(placed, n);
      assert ReadyAt(g, placed, i);
      forall d | d in g[n]
        ensures d !in rest
      {
        assert Edge(g, placed[i], d) && d in placed[..i];
      }
      KeepEmpty(g[n], rest);
    }
  }

  ghost predicate Level(g: Adjacency, rank: map<string, int>) {
    g.Keys <= rank.Keys && forall x, y :: x in g && y in g ==> rank[x] == rank[y]
  }

  /** Among nodes of one layer the head of the ready list is the least ready node. */
  lemma TakeHead(g: Adjacency, rank: map<string, int>, placed: seq<string>, indegree: map<string, nat>, ready: seq<string>)
    requires Contained(g) && Level(g, rank) && GreedyPrefix(g, rank, placed) && ready != []
    requires Pending(g, Remaining(g, placed), indegree) && ReadyList(g, Remaining(g, placed), indegree, ready)
    ensures GreedyPrefix(g, rank, placed + [ready[0]])
    ensures Remaining(g, placed + [ready[0]]) == Remaining(g, placed) - {ready[0]}
    ensures ReadyList(g, Remaining(g, placed) - {ready[0]}, indegree, ready[1..])
    ensures ready[0] in Remaining(g, placed) && indegree[ready[0]] == 0
  {
    CountsDecide(g, placed, indegree);
    var next := ready[0];
    assert next in ready;
    forall y | Ready(g, placed, y) && y != next
      ensures Precedes(rank, next, y)
    {
      var j := IndexIn(ready, y);
      assert Less(ready[0], ready[j]);
    }
    AppendReady(g, rank, placed, next);
    AscendingNoDuplicates(ready);
    forall x
      ensures x in ready[1..] <==> x in Remaining(g, placed) - {next} && indegree[x] == 0
    {
      assert ready == [next] + ready[1..];
      assert x in ready <==> x in Remaining(g, placed) && x in g && indegree[x] == 0;
      if x in ready[1..] {
        var j := IndexIn(ready[1..], x);
        assert ready[j + 1] == x;
      }
    }
  }

  ghost predicate AllIn(order: seq<Action>, nodes: seq<Action>) {
    forall a :: a in order ==> a in nodes
  }

  /** The emitted actions are the given ones, rearranged. */
  lemma EmittedAll(nodes: seq<Action>, order: seq<Action>, placed: seq<string>)
    requires DistinctIds(nodes) && AllIn(order, nodes) && IdsOf(order) == placed && NoDuplicates(placed)
    requires |order| == |nodes| || forall x :: x in NodeSet(nodes) ==> x in placed
    ensures multiset(order) == multiset(nodes) && forall x :: x in NodeSet(nodes) ==> x in placed
  {
    DistinctElements(nodes);
    assert NoDuplicates(order);
    if |order| == |nodes| {
      NoDuplicatesMultiset(order);
      NoDuplicatesMultiset(nodes);
      var o, n := set a | a in order, set a | a in nodes;
      assert |o| == |multiset(o)| == |multiset(order)| == |multiset(nodes)| == |multiset(n)| == |n|;
      SubsetEqual(o, n);
      forall x | x in NodeSet(nodes)
        ensures x in placed
      {
        var a := ById(nodes, x);
        assert a in o;
        var i :| 0 <= i < |order| && order[i] == a;
        assert placed[i] == x;
      }
    }
    forall a | a in nodes
      ensures a in order
    {
      assert a.node in NodeSet(nodes);
      var i := IndexIn(placed, a.node);
      assert order[i] in nodes && order[i].node == a.node;
    }
    SameActions(order, nodes);
  }

  lemma SubsetEqual<T>(a: set<T>, b: set<T>)
    requires a <= b && |a| == |b|
    ensures a == b
  {
    assert b == a + (b - a);
    assert |b| == |a| + |b - a|;
  }

  method IndexActions(nodes: seq<Action>) returns (byId: map<string, Action>)
    requires DistinctIds(nodes)
    ensures byId.Keys == NodeSet(nodes)
    ensures forall x :: x in byId ==> byId[x] in nodes && byId[x].node == x
  {
    byId := map[];
    for k := 0 to |nodes|
      invariant byId.Keys == NodeSet(nodes[..k])
      invariant forall x :: x in byId ==> byId[x] in nodes && byId[x].node == x
    {
      byId := byId[nodes[k].node := nodes[k]];
      assert nodes[..k + 1] == nodes[..k] + [nodes[k]];
    }
    assert nodes[..|nodes|] == nodes;
  }

  /** The nodes with a dependency still open, in order: a cycle and whatever is stranded behind it. */
  ghost predicate StuckList(g: Adjacency, stuck: seq<string>) {
    Ascending(stuck) && stuck != [] && forall x :: x in stuck <==> x in g && ReachesCycle(g, x)
  }

  ghost predicate KahnOutcome(nodes: seq<Action>, rank: map<string, int>, r: Result<seq<Action>, seq<string>>)
    requires NodeSet(nodes) <= rank.Keys
  {
    match r
    case Ok(order) =>
      && Acyclic(DepGraph(nodes))
      && multiset(order) == multiset(nodes)
      && Greedy(DepGraph(nodes), rank, IdsOf(order))
    case Err(stuck) => !Acyclic(DepGraph(nodes)) && StuckList(DepGraph(nodes), stuck)
  }

  lemma InitialReady(g: Adjacency, indegree: map<string, nat>)
    requires Contained(g) && indegree.Keys == g.Keys && CountsOf(g, indegree)
    ensures Remaining(g, []) == g.Keys && Pending(g, g.Keys, indegree)
  {
    forall n | n in g
      ensures Keep(g[n], g.Keys) == g[n]
    {
      assert forall d :: d in g[n] ==> Edge(g, n, d);
      KeepAll(g[n], g.Keys);
    }
  }

  lemma StuckWait(g: Adjacency, placed: seq<string>, indegree: map<string, nat>)
    requires Contained(g) && Partial(g, placed) && Pending(g, Remaining(g, placed), indegree)
    requires forall x :: !Ready(g, placed, x)
    ensures forall x :: x in g ==> (indegree[x] > 0 <==> x !in placed)
  {
    PlacedDrained(g, placed);
    CountsDecide(g, placed, indegree);
  }

  /** What holds of the loop's variables between two emissions. */
  ghost predicate Running(g: Adjacency, rank: map<string, int>, placed: seq<string>,
                          indegree: map<string, nat>, ready: seq<string>)
  {
    && Level(g, rank) && GreedyPrefix(g, rank, placed)
    && Pending(g, Remaining(g, placed), indegree)
    && ReadyList(g, Remaining(g, placed), indegree, ready)
  }

  lemma Finished(g: Adjacency, rank: map<string, int>, placed: seq<string>, indegree: map<string, nat>)
    requires Contained(g) && Running(g, rank, placed, indegree, [])
    ensures forall x :: x in g ==> (indegree[x] > 0 <==> ReachesCycle(g, x)) && (indegree[x] > 0 <==> x !in placed)
    ensures Acyclic(g) <==> forall x :: x in g ==> x in placed
  {
    CountsDecide(g, placed, indegree);
    assert forall x :: !Ready(g, placed, x);
    StuckWait(g, placed, indegree);
    StuckExactly(g, placed);
  }

  lemma Complete(nodes: seq<Action>, rank: map<string, int>, order: seq<Action>, placed: seq<string>, indegree: map<string, nat>)
    requires DistinctIds(nodes) && AllIn(order, nodes) && IdsOf(order) == placed
    requires Running(DepGraph(nodes), rank, placed, indegree, [])
    ensures |order| == |nodes| ==> KahnOutcome(nodes, rank, Ok(order))
    ensures |order| != |nodes| ==> !Acyclic(DepGraph(nodes))
  {
    var g := DepGraph(nodes);
    DepGraphEdges(nodes);
    Finished(g, rank, placed, indegree);
    if |order| == |nodes| || forall x :: x in g ==> x in placed {
      EmittedAll(nodes, order, placed);
      assert |order| == |multiset(order)| == |multiset(nodes)| == |nodes|;
    }
  }

  lemma Stuck(nodes: seq<Action>, rank: map<string, int>, placed: seq<string>, indegree: map<string, nat>, stuck: seq<string>)
    requires DistinctIds(nodes) && Running(DepGraph(nodes), rank, placed, indegree, [])
    requires !Acyclic(DepGraph(nodes)) && Ascending(stuck)
    requires forall x :: x in stuck <==> x in indegree && indegree[x] > 0
    ensures KahnOutcome(nodes, rank, Err(stuck))
  {
    var g := DepGraph(nodes);
    DepGraphEdges(nodes);
    Finished(g, rank, placed, indegree);
    var x :| x in g && x !in placed;
    assert x in stuck;
  }

  /** Emits the head of the ready list. */
  method Emit(children: map<string, seq<string>>, indegree0: map<string, nat>, ready0: seq<string>,
              ghost g: Adjacency, ghost rank: map<string, int>, ghost placed: seq<string>)
    returns (indegree: map<string, nat>, ready: seq<string>)
    requires Contained(g) && ChildrenOf(g, children) && ready0 != [] && Running(g, rank, placed, indegree0, ready0)
    ensures Running(g, rank, placed + [ready0[0]], indegree, ready)
    ensures ready0[0] in Remaining(g, placed)
    ensures Remaining(g, placed + [ready0[0]]) == Remaining(g, placed) - {ready0[0]}
  {
    var next := ready0[0];
    TakeHead(g, rank, placed, indegree0, ready0);
    PlacedDrained(g, placed);
    var kids := if next in children then children[next] else [];
    KidsListed(g, children, next, kids);
    indegree, ready := ReleaseChildren(kids, next, indegree0, ready0[1..], g, Remaining(g, placed));
  }

  lemma OrderNext(nodes: seq<Action>, order: seq<Action>, placed: seq<string>, a: Action)
    requires AllIn(order, nodes) && IdsOf(order) == placed && a in nodes
    ensures AllIn(order + [a], nodes) && IdsOf(order + [a]) == placed + [a.node]
  {
  }

  lemma StartRunning(g: Adjacency, rank: map<string, int>, indegree: map<string, nat>, ready: seq<string>)
    requires Contained(g) && Level(g, rank) && Remaining(g, []) == g.Keys && Pending(g, g.Keys, indegree)
    requires Ascending(ready) && forall x :: x in ready <==> x in indegree && indegree[x] == 0
    ensures Running(g, rank, [], indegree, ready)
  {
  }

  /** Fills the tables and the first ready list. */
  method Prepare(nodes: seq<Action>, ghost rank: map<string, int>)
    returns (byId: map<string, Action>, children: map<string, seq<string>>, indegree: map<string, nat>, ready: seq<string>)
    requires DistinctIds(nodes) && Level(DepGraph(nodes), rank)
    ensures byId.Keys == NodeSet(nodes)
    ensures forall x :: x in byId ==> byId[x] in nodes && byId[x].node == x
    ensures Contained(DepGraph(nodes)) && ChildrenOf(DepGraph(nodes), children)
    ensures Running(DepGraph(nodes), rank, [], indegree, ready)
  {
    byId := IndexActions(nodes);
    children, indegree := BuildEdges(nodes, byId.Keys);
    DepGraphEdges(nodes);
    InitialReady(DepGraph(nodes), indegree);
    ready := SortedKeys(set x | x in indegree && indegree[x] == 0);
    StartRunning(DepGraph(nodes), rank, indegree, ready);
  }

  method KahnSort(nodes: seq<Action>, ghost rank: map<string, int>) returns (r: Result<seq<Action>, seq<string>>)
    requires DistinctIds(nodes) && Level(DepGraph(nodes), rank)
    ensures KahnOutcome(nodes, rank, r)
  {
    var byId, children, indegree, ready := Prepare(nodes, rank);
    ghost var g := DepGraph(nodes);
    var order: seq<Action> := [];
    ghost var placed: seq<string> := [];
    while ready != []
      invariant AllIn(order, nodes) && IdsOf(order) == placed
      invariant Running(g, rank, placed, indegree, ready)
      decreases Remaining(g, placed)
    {
      var next := ready[0];
      indegree, ready := Emit(children, indegree, ready, g, rank, placed);
      OrderNext(nodes, order, placed, byId[next]);
      order, placed := order + [byId[next]], placed + [next];
    }
    Complete(nodes, rank, order, placed, indegree);
    if |order| != |nodes| {
      var stuck := SortedKeys(set x | x in indegree && indegree[x] > 0);
      Stuck(nodes, rank, placed, indegree, stuck);
      r := Err(stuck);
    } else {
      r := Ok(order);
    }
  }

  lemma KidsListed(g: Adjacency, children: map<string, seq<string>>, next: string, kids: seq<string>)
    requires ChildrenOf(g, children) && kids == if next in children then children[next] else []
    ensures KidsOf(g, kids, next)
  {
    forall n {:trigger Listed(g, n, next)}
      ensures multiset(kids)[n] == Listed(g, n, next)
    {
      assert Occurrences(children, next, n) == Listed(g, n, next);
    }
  }
}
