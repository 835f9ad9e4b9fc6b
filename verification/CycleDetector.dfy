/**
 The validator's three-colour depth-first cycle detector.

 `Detect` is exact: it reports nothing if and only if the graph is acyclic, and
 what it reports are simple closed walks along real edges.  It does not list
 every cycle; the stronger fact that holds is that the closing edges of the
 reported cycles meet every cycle, so deleting them leaves an acyclic graph.
 */
module CycleDetector {
  import opened Order
  import opened Graph

  datatype Color = Gray | Black

  /** The tables the search updates; a node absent from `color` is white. */
  datatype Tables = Tables(color: map<string, Color>, parent: map<string, string>, cycles: seq<seq<string>>)

  /** The edge that closed a reported path: from its last node but one back to its start. */
  ghost function ClosingEdges(cycles: seq<seq<string>>): set<(string, string)> {
    set c | c in cycles && |c| >= 2 :: (c[|c| - 2], c[|c| - 1])
  }

  lemma ClosingEdgesGrow(cycles: seq<seq<string>>, more: seq<seq<string>>)
    requires cycles <= more
    ensures ClosingEdges(cycles) <= ClosingEdges(more)
  {
    forall e | e in ClosingEdges(cycles)
      ensures e in ClosingEdges(more)
    {
      var c :| c in cycles && |c| >= 2 && e == (c[|c| - 2], c[|c| - 1]);
      assert c in more;
    }
  }

  lemma DownwardFinish(g: Adjacency, order: seq<string>, n: string, excused: set<(string, string)>)
    requires Downward(g, order, excused)
    requires forall b :: Edge(g, n, b) ==> b in order || (n, b) in excused
    ensures Downward(g, order + [n], excused)
  {
    var longer := order + [n];
    forall i, b | 0 <= i < |longer| && Edge(g, longer[i], b) && (longer[i], b) !in excused
      ensures b in longer[..i]
    {
      if i < |order| {
        assert longer[..i] == order[..i];
      } else {
        assert longer[..i] == order;
      }
    }
  }

  ghost predicate Link(parent: map<string, string>, stack: seq<string>, i: int)
    requires 1 <= i < |stack|
  {
    stack[i] in parent && parent[stack[i]] == stack[i - 1]
  }

  /** Each node of the stack points at the one below it. */
  ghost predicate Linked(parent: map<string, string>, stack: seq<string>) {
    forall i {:trigger Link(parent, stack, i)} :: 1 <= i < |stack| ==> Link(parent, stack, i)
  }

  lemma LinkedPrefix(parent: map<string, string>, stack: seq<string>, top: string)
    requires Linked(parent, stack + [top])
    ensures Linked(parent, stack)
  {
    forall i {:trigger Link(parent, stack, i)} | 1 <= i < |stack|
      ensures Link(parent, stack, i)
    {
      assert Link(parent, stack + [top], i);
    }
  }

  /** Follows parent pointers from the top of the stack down to `stack[k]`, then reverses the trail. */
  method TracePath(parent: map<string, string>, node: string, neighbor: string, ghost stack: seq<string>, ghost k: nat)
    returns (path: seq<string>)
    requires k < |stack| && stack[k] == neighbor && stack[|stack| - 1] == node && NoDuplicates(stack)
    requires Linked(parent, stack)
    ensures path == stack[k..] + [neighbor]
  {
    path := [];
    var n := node;
    ghost var m := |stack| - 1;
    while n != neighbor
      invariant k <= m < |stack| && n == stack[m]
      invariant |path| == |stack| - 1 - m
      invariant forall t :: 0 <= t < |path| ==> path[t] == stack[|stack| - 1 - t]
      decreases m
    {
      path := path + [n];
      assert m > k && Link(parent, stack, m);
      n := parent[n];
      m := m - 1;
    }
    path := path + [neighbor];
    ghost var back := path;
    var i, j := 0, |path| - 1;
    while i < j
      invariant |path| == |back| == |stack| - k && 0 <= i <= j + 1 && i + j == |path| - 1
      invariant forall t :: 0 <= t < i || j < t < |path| ==> path[t] == back[|back| - 1 - t]
      invariant forall t :: i <= t <= j ==> path[t] == back[t]
    {
      path := path[i := path[j]][j := path[i]];
      i, j := i + 1, j - 1;
    }
    assert path == stack[k..];
    path := path + [neighbor];
  }

  /** What the detector's tables mean while `stack` is the chain of nodes under exploration. */
  ghost predicate Sound(adj: Adjacency, st: Tables, finished: seq<string>, stack: seq<string>)
  {
    && NoDuplicates(stack) && Walk(adj, stack) && Linked(st.parent, stack)
    && (forall n :: n in st.color <==> n in stack || n in finished)
    && (forall n :: n in stack ==> n in st.color && st.color[n] == Gray)
    && (forall n :: n in finished ==> n in st.color && st.color[n] == Black)
    && (forall c :: c in st.cycles ==> SimpleCycle(adj, c))
    && Downward(adj, finished, ClosingEdges(st.cycles))
  }

  ghost predicate Settled(finished: seq<string>, cycles: seq<seq<string>>, a: string, b: string) {
    b in finished || (a, b) in ClosingEdges(cycles)
  }

  ghost predicate AllSettled(finished: seq<string>, cycles: seq<seq<string>>, a: string, bs: seq<string>) {
    forall b :: b in bs ==> Settled(finished, cycles, a, b)
  }

  lemma SettledGrow(finished: seq<string>, finished': seq<string>, cycles: seq<seq<string>>, cycles': seq<seq<string>>,
                    a: string, bs: seq<string>)
    requires AllSettled(finished, cycles, a, bs) && finished <= finished' && cycles <= cycles'
    ensures AllSettled(finished', cycles', a, bs)
  {
    ClosingEdgesGrow(cycles, cycles');
  }

  ghost predicate Closed(adj: Adjacency, universe: set<string>) {
    forall a, b :: Edge(adj, a, b) ==> b in universe
  }

  lemma EnterSound(adj: Adjacency, st: Tables, finished: seq<string>, stack: seq<string>, node: string)
    requires Sound(adj, st, finished, stack) && node !in st.color
    requires stack != [] ==>
               Edge(adj, stack[|stack| - 1], node) && node in st.parent && st.parent[node] == stack[|stack| - 1]
    ensures Sound(adj, st.(color := st.color[node := Gray]), finished, stack + [node])
  {
    var active := stack + [node];
    if stack == [] {
      assert Walk(adj, active) && Linked(st.parent, active);
    } else {
      ExtendWalk(adj, stack, node);
      forall i | 1 <= i < |active|
        ensures Link(st.parent, active, i)
      {
        if i < |stack| {
          assert Link(st.parent, stack, i);
        }
      }
    }
  }

  lemma ParentSound(adj: Adjacency, st: Tables, finished: seq<string>, stack: seq<string>, child: string, node: string)
    requires Sound(adj, st, finished, stack) && child !in st.color
    ensures Sound(adj, st.(parent := st.parent[child := node]), finished, stack)
  {
    var linked := st.parent[child := node];
    forall i {:trigger Link(linked, stack, i)} | 1 <= i < |stack|
      ensures Link(linked, stack, i)
    {
      assert Link(st.parent, stack, i);
    }
  }

  lemma ReportSound(adj: Adjacency, st: Tables, finished: seq<string>, stack: seq<string>, path: seq<string>)
    requires Sound(adj, st, finished, stack) && SimpleCycle(adj, path)
    ensures Sound(adj, st.(cycles := st.cycles + [path]), finished, stack)
    ensures (path[|path| - 2], path[|path| - 1]) in ClosingEdges(st.cycles + [path])
  {
    assert path in st.cycles + [path];
    ClosingEdgesGrow(st.cycles, st.cycles + [path]);
  }

  lemma LeaveSound(adj: Adjacency, st: Tables, finished: seq<string>, stack: seq<string>, node: string)
    requires Sound(adj, st, finished, stack + [node])
    requires forall b :: Edge(adj, node, b) ==> Settled(finished, st.cycles, node, b)
    ensures Sound(adj, st.(color := st.color[node := Black]), finished + [node], stack)
  {
    var active := stack + [node];
    assert active[|stack|] == node && forall i :: 0 <= i < |stack| ==> active[i] == stack[i];
    forall i | 0 <= i < |stack| - 1
      ensures Step(adj, stack, i)
    {
      assert Step(adj, active, i);
    }
    LinkedPrefix(st.parent, stack, node);
    DownwardFinish(adj, finished, node, ClosingEdges(st.cycles));
  }

  /** Explores `node`, whose parent is the top of `stack`; returns the updated tables. */
  method Dfs(adj: Adjacency, st: Tables, node: string,
             ghost done: seq<string>, ghost stack: seq<string>, ghost universe: set<string>)
    returns (r: Tables, ghost finished: seq<string>)
    requires Sound(adj, st, done, stack) && node !in st.color
    requires node in universe && Closed(adj, universe)
    requires stack != [] ==>
               Edge(adj, stack[|stack| - 1], node) && node in st.parent && st.parent[node] == stack[|stack| - 1]
    ensures Sound(adj, r, finished, stack) && node in finished
    ensures done <= finished && st.cycles <= r.cycles && st.color.Keys <= r.color.Keys
    decreases universe - st.color.Keys, 1
  {
    EnterSound(adj, st, done, stack, node);
    var entered := st.(color := st.color[node := Gray]);
    r, finished := VisitAll(adj, entered, node, done, stack + [node], universe);
    LeaveSound(adj, r, finished, stack, node);
    r, finished := r.(color := r.color[node := Black]), finished + [node];
  }

  /** Every neighbour of the node on top of the stack, in list order. */
  method VisitAll(adj: Adjacency, st: Tables, node: string,
                  ghost done: seq<string>, ghost active: seq<string>, ghost universe: set<string>)
    returns (r: Tables, ghost finished: seq<string>)
    requires active != [] && active[|active| - 1] == node && Sound(adj, st, done, active)
    requires Closed(adj, universe)
    ensures Sound(adj, r, finished, active)
    ensures forall b :: Edge(adj, node, b) ==> Settled(finished, r.cycles, node, b)
    ensures done <= finished && st.cycles <= r.cycles && st.color.Keys <= r.color.Keys
    decreases universe - st.color.Keys, 3
  {
    r, finished := st, done;
    var neighbors := if node in adj then adj[node] else [];
    var i := 0;
    while i < |neighbors|
      invariant i <= |neighbors|
      invariant Sound(adj, r, finished, active)
      invariant done <= finished && st.cycles <= r.cycles && st.color.Keys <= r.color.Keys
      invariant AllSettled(finished, r.cycles, node, neighbors[..i])
    {
      ghost var seen, before := finished, r.cycles;
      r, finished := Visit(adj, r, node, neighbors[i], finished, active, universe);
      SettledGrow(seen, finished, before, r.cycles, node, neighbors[..i]);
      assert neighbors[..i + 1] == neighbors[..i] + [neighbors[i]];
      i := i + 1;
    }
    assert neighbors[..i] == neighbors;
  }

  /** One neighbour of the node on top of the stack: explore it, close a cycle, or pass over it. */
  method Visit(adj: Adjacency, st: Tables, node: string, neighbor: string,
               ghost done: seq<string>, ghost active: seq<string>, ghost universe: set<string>)
    returns (r: Tables, ghost finished: seq<string>)
    requires active != [] && active[|active| - 1] == node && Sound(adj, st, done, active)
    requires Edge(adj, node, neighbor) && Closed(adj, universe)
    ensures Sound(adj, r, finished, active)
    ensures Settled(finished, r.cycles, node, neighbor)
    ensures done <= finished && st.cycles <= r.cycles && st.color.Keys <= r.color.Keys
    decreases universe - st.color.Keys, 2
  {
    r, finished := st, done;
    if neighbor !in st.color {
      ParentSound(adj, st, done, active, neighbor, node);
      r, finished := Dfs(adj, st.(parent := st.parent[neighbor := node]), neighbor, done, active, universe);
    } else if st.color[neighbor] == Gray {
      assert neighbor in active;
      ghost var k := IndexIn(active, neighbor);
      var path := TracePath(st.parent, node, neighbor, active, k);
      CloseWalk(adj, active, k);
      assert path[..|path| - 1] == active[k..];
      ReportSound(adj, st, done, active, path);
      r := st.(cycles := st.cycles + [path]);
    }
  }

  ghost predicate Covers(finished: seq<string>, keys: seq<string>) {
    forall x :: x in keys ==> x in finished
  }

  ghost function Nodes(adj: Adjacency): set<string> {
    adj.Keys + set a, i | a in adj && 0 <= i < |adj[a]| :: adj[a][i]
  }

  lemma NodesClosed(adj: Adjacency)
    ensures Closed(adj, Nodes(adj))
  {
  }

  /** Once every edge source is finished, the tables decide acyclicity. */
  lemma SoundIsExact(adj: Adjacency, st: Tables, finished: seq<string>)
    requires Sound(adj, st, finished, []) && adj.Keys <= (set x | x in finished)
    ensures st.cycles == [] <==> Acyclic(adj)
    ensures forall c :: c in st.cycles ==> SimpleCycle(adj, c)
    ensures forall p :: Cycle(adj, p) ==> UsesEdge(p, ClosingEdges(st.cycles))
  {
    forall p | Cycle(adj, p)
      ensures UsesEdge(p, ClosingEdges(st.cycles))
    {
      DownwardCycles(adj, finished, ClosingEdges(st.cycles), p);
    }
    if st.cycles != [] {
      assert st.cycles[0] in st.cycles;
      assert Cycle(adj, st.cycles[0]);
    }
  }

  method Detect(adj: Adjacency) returns (cycles: seq<seq<string>>)
    ensures cycles == [] <==> Acyclic(adj)
    ensures forall c :: c in cycles ==> SimpleCycle(adj, c)
    ensures forall p :: Cycle(adj, p) ==> UsesEdge(p, ClosingEdges(cycles))
  {
    hide Sound, Acyclic, SimpleCycle, Cycle, UsesEdge, Closed, Nodes;
    var keys := SortedKeys(adj.Keys);
    var st := Tables(map[], map[], []);
    ghost var finished: seq<string> := [];
    NodesClosed(adj);
    Unvisited(adj);
    var k := 0;
    while k < |keys|
      invariant k <= |keys| && Sound(adj, st, finished, [])
      invariant Covers(finished, keys[..k])
    {
      assert keys[..k + 1] == keys[..k] + [keys[k]];
      if keys[k] !in st.color {
        InNodes(adj, keys[k]);
        st, finished := Dfs(adj, st, keys[k], finished, [], Nodes(adj));
      } else {
        ColoredFinished(adj, st, finished, keys[k]);
      }
      k := k + 1;
    }
    assert keys[..k] == keys;
    SoundIsExact(adj, st, finished);
    cycles := st.cycles;
  }

  lemma Unvisited(adj: Adjacency)
    ensures Sound(adj, Tables(map[], map[], []), [], [])
  {
  }

  lemma InNodes(adj: Adjacency, n: string)
    requires n in adj
    ensures n in Nodes(adj)
  {
  }

  lemma ColoredFinished(adj: Adjacency, st: Tables, finished: seq<string>, n: string)
    requires Sound(adj, st, finished, []) && n in st.color
    ensures n in finished
  {
  }
}
