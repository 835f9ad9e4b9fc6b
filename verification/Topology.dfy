/**
 Topological orders of a dependency graph, and the one order that is least among
 them.  An entry `g[x]` lists what `x` depends on; `rank` groups nodes into layers.
 */
module Topology {
  import opened Order
  import opened Graph

  /** Every edge stays inside the graph. */
  ghost predicate Contained(g: Adjacency) {
    forall x, d :: Edge(g, x, d) ==> d in g
  }

  /** x is not placed yet and everything it depends on is. */
  ghost predicate Ready(g: Adjacency, placed: seq<string>, x: string) {
    x in g && x !in placed && forall d :: Edge(g, x, d) ==> d in placed
  }

  predicate Precedes(rank: map<string, int>, x: string, y: string)
    requires x in rank && y in rank
  {
    rank[x] < rank[y] || (rank[x] == rank[y] && Less(x, y))
  }

  ghost predicate ReadyAt(g: Adjacency, order: seq<string>, k: int)
    requires 0 <= k < |order|
  {
    Ready(g, order[..k], order[k])
  }

  /** Nothing ready at step k comes before the node placed there. */
  ghost predicate LeastAt(g: Adjacency, rank: map<string, int>, order: seq<string>, k: int)
    requires 0 <= k < |order| && g.Keys <= rank.Keys
  {
    order[k] in g && forall y :: Ready(g, order[..k], y) && y != order[k] ==> Precedes(rank, order[k], y)
  }

  /** Dependencies come first, as far as the order goes. */
  ghost predicate Partial(g: Adjacency, order: seq<string>) {
    NoDuplicates(order) && forall k {:trigger ReadyAt(g, order, k)} :: 0 <= k < |order| ==> ReadyAt(g, order, k)
  }

  ghost predicate Topological(g: Adjacency, order: seq<string>) {
    Partial(g, order) && forall x :: x in g ==> x in order
  }

  /** A partial order that places the least ready node at every step. */
  ghost predicate GreedyPrefix(g: Adjacency, rank: map<string, int>, order: seq<string>)
    requires g.Keys <= rank.Keys
  {
    && Partial(g, order)
    && (forall k {:trigger LeastAt(g, rank, order, k)} :: 0 <= k < |order| ==> LeastAt(g, rank, order, k))
  }

  ghost predicate Greedy(g: Adjacency, rank: map<string, int>, order: seq<string>)
    requires g.Keys <= rank.Keys
  {
    GreedyPrefix(g, rank, order) && forall x :: x in g ==> x in order
  }

  lemma PrecedesAsymmetric(rank: map<string, int>, x: string, y: string)
    requires x in rank && y in rank && Precedes(rank, x, y)
    ensures !Precedes(rank, y, x) && x != y
  {
    LessIrreflexive(x);
    if Less(x, y) {
      LessAsymmetric(x, y);
    }
  }

  lemma AppendReady(g: Adjacency, rank: map<string, int>, order: seq<string>, x: string)
    requires g.Keys <= rank.Keys && GreedyPrefix(g, rank, order) && Ready(g, order, x)
    requires forall y :: Ready(g, order, y) && y != x ==> Precedes(rank, x, y)
    ensures GreedyPrefix(g, rank, order + [x])
  {
    var longer := order + [x];
    forall k {:trigger ReadyAt(g, longer, k)} {:trigger LeastAt(g, rank, longer, k)} | 0 <= k < |longer|
      ensures ReadyAt(g, longer, k) && LeastAt(g, rank, longer, k)
    {
      if k < |order| {
        assert longer[..k] == order[..k];
        assert ReadyAt(g, order, k) && LeastAt(g, rank, order, k);
      } else {
        assert longer[..k] == order;
      }
    }
  }

  /** A complete order exists only for an acyclic graph. */
  lemma TopologicalAcyclic(g: Adjacency, order: seq<string>)
    requires Topological(g, order)
    ensures Acyclic(g)
  {
    forall i, b | 0 <= i < |order| && Edge(g, order[i], b)
      ensures b in order[..i]
    {
      assert ReadyAt(g, order, i);
    }
    forall p | Cycle(g, p)
      ensures false
    {
      DownwardCycles(g, order, {}, p);
    }
  }

  /** Where two orders first part ways. */
  lemma {:induction false} FirstDifference(a: seq<string>, b: seq<string>) returns (k: nat)
    requires |a| == |b| && a != b
    ensures k < |a| && a[..k] == b[..k] && a[k] != b[k]
  {
    if a[0] != b[0] {
      k := 0;
    } else {
      assert a == [a[0]] + a[1..] && b == [b[0]] + b[1..];
      var rest := FirstDifference(a[1..], b[1..]);
      k := rest + 1;
      assert a[..k] == [a[0]] + a[1..][..rest] && b[..k] == [b[0]] + b[1..][..rest];
    }
  }

  lemma OrdersSameLength(g: Adjacency, a: seq<string>, b: seq<string>)
    requires Topological(g, a) && Topological(g, b)
    ensures |a| == |b|
  {
    forall x
      ensures x in a <==> x in g
      ensures x in b <==> x in g
    {
      if x in a {
        var i := IndexIn(a, x);
        assert ReadyAt(g, a, i);
      }
      if x in b {
        var i := IndexIn(b, x);
        assert ReadyAt(g, b, i);
      }
    }
    NoDuplicatesMultiset(a);
    NoDuplicatesMultiset(b);
    assert (set x | x in a) == (set x | x in b);
    assert |a| == |multiset(a)| == |multiset(b)| == |b|;
  }

  /** The greedy order is the least topological order: where another one first differs, it is later. */
  lemma GreedyLeast(g: Adjacency, rank: map<string, int>, order: seq<string>, other: seq<string>) returns (k: nat)
    requires g.Keys <= rank.Keys && Greedy(g, rank, order) && Topological(g, other) && other != order
    ensures k < |order| && k < |other| && order[..k] == other[..k]
    ensures order[k] in rank && other[k] in rank && Precedes(rank, order[k], other[k])
  {
    OrdersSameLength(g, order, other);
    k := FirstDifference(order, other);
    assert ReadyAt(g, order, k) && LeastAt(g, rank, order, k);
    assert ReadyAt(g, other, k);
  }

  /** The graph alone fixes the greedy order. */
  lemma GreedyUnique(g: Adjacency, rank: map<string, int>, a: seq<string>, b: seq<string>)
    requires g.Keys <= rank.Keys && Greedy(g, rank, a) && Greedy(g, rank, b)
    ensures a == b
  {
    if a != b {
      OrdersSameLength(g, a, b);
      var k := FirstDifference(a, b);
      assert ReadyAt(g, a, k) && LeastAt(g, rank, a, k);
      assert ReadyAt(g, b, k) && LeastAt(g, rank, b, k);
      PrecedesAsymmetric(rank, a[k], b[k]);
    }
  }

  /** x starts a walk that comes back on itself. */
  ghost predicate ReachesCycle(g: Adjacency, x: string) {
    exists p :: p != [] && p[0] == x && Walk(g, p) && !NoDuplicates(p)
  }

  lemma {:induction false} LeavesPlaced(g: Adjacency, order: seq<string>, p: seq<string>)
    requires Partial(g, order) && p != [] && p[0] in order && Walk(g, p)
    ensures NoDuplicates(p)
    ensures forall x :: x in p ==> x in order && IndexIn(order, x) <= IndexIn(order, p[0])
    decreases |p|
  {
    if |p| > 1 {
      var q := p[1..];
      var i := IndexIn(order, p[0]);
      assert ReadyAt(g, order, i) && Step(g, p, 0);
      assert p[1] in order[..i];
      forall k | 0 <= k < |q| - 1
        ensures Step(g, q, k)
      {
        assert Step(g, p, k + 1);
      }
      LeavesPlaced(g, order, q);
      assert IndexIn(order, q[0]) < i;
      assert p == [p[0]] + q;
      assert forall x :: x in q ==> x != p[0];
    }
  }

  /** When nothing more is ready, the nodes left over are those that run into a cycle. */
  lemma StuckExactly(g: Adjacency, order: seq<string>)
    requires Contained(g) && Partial(g, order) && forall x :: !Ready(g, order, x)
    ensures forall x :: x in g && x !in order <==> x in g && ReachesCycle(g, x)
    ensures Acyclic(g) <==> forall x :: x in g ==> x in order
  {
    var stuck := set x | x in g && x !in order;
    forall x {:trigger LeadsInto(g, x, stuck)} | x in stuck
      ensures LeadsInto(g, x, stuck)
    {
      assert !Ready(g, order, x);
    }
    forall x | x in g
      ensures x !in order <==> ReachesCycle(g, x)
    {
      if x in order {
        if ReachesCycle(g, x) {
          var p :| p != [] && p[0] == x && Walk(g, p) && !NoDuplicates(p);
          LeavesPlaced(g, order, p);
        }
      } else {
        var p := RunIntoCycle(g, stuck, [x]);
      }
    }
    if stuck == {} {
      assert forall x :: x in g ==> x in order by {
        forall x | x in g
          ensures x in order
        {
          assert x !in stuck;
        }
      }
      TopologicalAcyclic(g, order);
    } else {
      var c := StuckHasCycle(g, stuck);
    }
  }

  lemma {:induction false} RunIntoCycle(g: Adjacency, stuck: set<string>, p: seq<string>) returns (q: seq<string>)
    requires p != [] && Walk(g, p) && NoDuplicates(p)
    requires forall x :: x in p ==> x in stuck
    requires forall x {:trigger LeadsInto(g, x, stuck)} :: x in stuck ==> LeadsInto(g, x, stuck)
    ensures q != [] && q[0] == p[0] && Walk(g, q) && !NoDuplicates(q)
    decreases |stuck| - |p|
  {
    var last := p[|p| - 1];
    assert LeadsInto(g, last, stuck);
    var y :| y in stuck && Edge(g, last, y);
    q := p + [y];
    forall i | 0 <= i < |q| - 1
      ensures Step(g, q, i)
    {
      if i < |p| - 1 {
        assert Step(g, p, i);
      }
    }
    if y in p {
      var k := IndexIn(p, y);
      assert q[k] == q[|p|];
    } else {
      NoDuplicatesBounded(q, stuck);
      q := RunIntoCycle(g, stuck, q);
    }
  }
}
