/**
 Directed graphs given by adjacency lists, as the validator, the sorter and the
 dependency collector use them.  A node without an entry has no successors.
 */
module Graph {
  import opened Order

  type Adjacency = map<string, seq<string>>

  predicate Edge(g: Adjacency, a: string, b: string) {
    a in g && b in g[a]
  }

  ghost predicate Step(g: Adjacency, p: seq<string>, i: int)
    requires 0 <= i < |p| - 1
  {
    Edge(g, p[i], p[i + 1])
  }

  ghost predicate Walk(g: Adjacency, p: seq<string>) {
    forall i {:trigger Step(g, p, i)} :: 0 <= i < |p| - 1 ==> Step(g, p, i)
  }

  /** A closed walk with at least one edge. */
  ghost predicate Cycle(g: Adjacency, p: seq<string>) {
    |p| >= 2 && p[0] == p[|p| - 1] && Walk(g, p)
  }

  /** A cycle that repeats no node except the one it starts and ends at. */
  ghost predicate SimpleCycle(g: Adjacency, p: seq<string>) {
    Cycle(g, p) && NoDuplicates(p[..|p| - 1])
  }

  ghost predicate Acyclic(g: Adjacency) {
    forall p :: !Cycle(g, p)
  }

  /** Every edge leaving `order[i]` leads to an earlier entry, unless it is one of `excused`. */
  ghost predicate Downward(g: Adjacency, order: seq<string>, excused: set<(string, string)>) {
    forall i, b :: 0 <= i < |order| && Edge(g, order[i], b) && (order[i], b) !in excused ==> b in order[..i]
  }

  ghost predicate StepIn(p: seq<string>, edges: set<(string, string)>, i: int)
    requires 0 <= i < |p| - 1
  {
    (p[i], p[i + 1]) in edges
  }

  ghost predicate UsesEdge(p: seq<string>, edges: set<(string, string)>) {
    exists i {:trigger StepIn(p, edges, i)} :: 0 <= i < |p| - 1 && StepIn(p, edges, i)
  }

  function IndexIn(s: seq<string>, x: string): (i: nat)
    requires x in s
    ensures i < |s| && s[i] == x
    ensures x !in s[..i]
  {
    if s[0] == x then
      0
    else
      var rest := IndexIn(s[1..], x);
      assert s[..rest + 1] == [s[0]] + s[1..][..rest];
      rest + 1
  }

  /** Along a walk that avoids the excused edges, positions in a downward order strictly fall. */
  lemma {:induction false} WalkDescends(g: Adjacency, order: seq<string>, excused: set<(string, string)>, p: seq<string>)
    requires |p| >= 2 && Walk(g, p) && !UsesEdge(p, excused) && Downward(g, order, excused)
    requires p[0] in order
    ensures p[|p| - 1] in order[..IndexIn(order, p[0])]
  {
    var i := IndexIn(order, p[0]);
    assert Step(g, p, 0) && !StepIn(p, excused, 0);
    assert p[1] in order[..i];
    if |p| > 2 {
      var q := p[1..];
      forall k | 0 <= k < |q| - 1
        ensures Step(g, q, k) && !StepIn(q, excused, k)
      {
        assert Step(g, p, k + 1) && !StepIn(p, excused, k + 1);
      }
      WalkDescends(g, order, excused, q);
      var j := IndexIn(order, p[1]);
      assert j < i;
      assert order[..j] <= order[..i];
    }
  }

  /** If all edge sources are listed in a downward order, every cycle uses an excused edge. */
  lemma DownwardCycles(g: Adjacency, order: seq<string>, excused: set<(string, string)>, p: seq<string>)
    requires Downward(g, order, excused) && g.Keys <= (set x | x in order)
    requires Cycle(g, p)
    ensures UsesEdge(p, excused)
  {
    if !UsesEdge(p, excused) {
      assert Step(g, p, 0);
      WalkDescends(g, order, excused, p);
    }
  }

  ghost predicate LeadsInto(g: Adjacency, x: string, target: set<string>) {
    exists y :: y in target && Edge(g, x, y)
  }

  /** A non-empty set in which every node has a successor contains a cycle. */
  lemma StuckHasCycle(g: Adjacency, stuck: set<string>) returns (c: seq<string>)
    requires stuck != {}
    requires forall x {:trigger LeadsInto(g, x, stuck)} :: x in stuck ==> LeadsInto(g, x, stuck)
    ensures Cycle(g, c)
    ensures forall x :: x in c ==> x in stuck
  {
    var x :| x in stuck;
    c := ExtendToCycle(g, stuck, [x]);
  }

  /** A walk whose last node has an edge back to its k-th node closes into a cycle. */
  lemma CloseWalk(g: Adjacency, p: seq<string>, k: nat)
    requires k < |p| && Walk(g, p) && Edge(g, p[|p| - 1], p[k])
    ensures Cycle(g, p[k..] + [p[k]])
  {
    var c := p[k..] + [p[k]];
    forall i | 0 <= i < |c| - 1
      ensures Step(g, c, i)
    {
      if i < |c| - 2 {
        assert Step(g, p, k + i);
      }
    }
  }

  lemma ExtendWalk(g: Adjacency, p: seq<string>, y: string)
    requires p != [] && Walk(g, p) && NoDuplicates(p)
    requires Edge(g, p[|p| - 1], y) && y !in p
    ensures Walk(g, p + [y]) && NoDuplicates(p + [y])
  {
    var q := p + [y];
    forall i | 0 <= i < |q| - 1
      ensures Step(g, q, i)
    {
      if i < |p| - 1 {
        assert Step(g, p, i);
      }
    }
  }

  lemma {:induction false} ExtendToCycle(g: Adjacency, stuck: set<string>, p: seq<string>) returns (c: seq<string>)
    requires p != [] && Walk(g, p) && NoDuplicates(p)
    requires forall x :: x in p ==> x in stuck
    requires forall x {:trigger LeadsInto(g, x, stuck)} :: x in stuck ==> LeadsInto(g, x, stuck)
    ensures Cycle(g, c)
    ensures forall x :: x in c ==> x in stuck
    decreases |stuck| - |p|
  {
    var last := p[|p| - 1];
    assert LeadsInto(g, last, stuck);
    var y :| y in stuck && Edge(g, last, y);
    if y in p {
      var k := IndexIn(p, y);
      c := p[k..] + [y];
      CloseWalk(g, p, k);
    } else {
      var q := p + [y];
      ExtendWalk(g, p, y);
      NoDuplicatesBounded(q, stuck);
      c := ExtendToCycle(g, stuck, q);
    }
  }

  lemma NoDuplicatesBounded<T>(s: seq<T>, bound: set<T>)
    requires NoDuplicates(s) && forall x :: x in s ==> x in bound
    ensures |s| <= |bound|
  {
    NoDuplicatesMultiset(s);
    var elements := set x | x in s;
    assert |s| == |multiset(s)| == |multiset(elements)| == |elements|;
    assert elements <= bound;
    SubsetCardinality(elements, bound);
  }

  lemma SubsetCardinality<T>(a: set<T>, b: set<T>)
    requires a <= b
    ensures |a| <= |b|
  {
    assert |b| == |a| + |b - a| by { assert b == a + (b - a); }
  }
}
