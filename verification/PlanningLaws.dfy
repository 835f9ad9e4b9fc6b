/**
 Planning is a function of sets: the order in which changes and pairings arrive
 does not matter, and what comes out names each node once.
 */
module PlanningLaws {
  import opened Results
  import opened Order
  import opened Bags
  import opened PlanTypes
  import opened Merkle
  import opened SpecGraph
  import opened Resolver
  import opened Matcher
  import opened Classifier

  /** A diff names each key once. */
  ghost predicate DistinctKeys(changes: seq<NodeChange>) {
    forall i, j :: 0 <= i < j < |changes| ==> changes[i].key != changes[j].key
  }

  /** The fold lists one entry per node, and no task for two nodes. */
  ghost predicate OnePerNode(pairings: seq<Pairing>) {
    forall i, j :: 0 <= i < j < |pairings| ==> pairings[i].node != pairings[j].node && pairings[i].task != pairings[j].task
  }

  lemma SameMembers<T>(a: seq<T>, b: seq<T>, x: T)
    requires multiset(a) == multiset(b)
    ensures x in a <==> x in b
  {
    assert x in a <==> x in multiset(a);
    assert x in b <==> x in multiset(b);
  }

  // ---- pairings ----

  lemma {:induction false} NoRecords(pairings: seq<Pairing>, node: string)
    requires forall p :: p in pairings ==> p.node != node
    ensures Records(pairings, node) == []
  {
    if pairings != [] {
      var init := pairings[..|pairings| - 1];
      assert pairings == init + [pairings[|pairings| - 1]];
      NoRecords(init, node);
      FlatMapNext(WithNode(node), pairings, |pairings| - 1);
      assert pairings[..|pairings|] == pairings;
    }
  }

  lemma {:induction false} OneRecord(pairings: seq<Pairing>, node: string)
    requires OnePerNode(pairings)
    ensures |Records(pairings, node)| <= 1
    ensures forall p :: p in Records(pairings, node) ==> p in pairings && p.node == node
  {
    if pairings != [] {
      var n := |pairings| - 1;
      var init := pairings[..n];
      assert pairings == init + [pairings[n]] && pairings[..|pairings|] == pairings;
      OneRecord(init, node);
      FlatMapNext(WithNode(node), pairings, n);
      if pairings[n].node == node {
        NoRecords(init, node);
      }
    }
  }

  lemma SingleAgree<T>(a: seq<T>, b: seq<T>)
    requires multiset(a) == multiset(b) && |a| <= 1
    ensures a == b
  {
    assert |a| == |multiset(a)| == |multiset(b)| == |b|;
    if a != [] {
      SameMembers(a, b, a[0]);
    }
  }

  lemma SameRecords(p: seq<Pairing>, q: seq<Pairing>, node: string)
    requires OnePerNode(p) && multiset(p) == multiset(q)
    ensures Records(p, node) == Records(q, node)
  {
    OneRecord(p, node);
    FlatMapPermute(WithNode(node), p, q);
    SingleAgree(Records(p, node), Records(q, node));
  }

  // ---- correlation ----

  ghost predicate SamePairings(p: seq<Pairing>, q: seq<Pairing>) {
    forall node :: Records(p, node) == Records(q, node)
  }

  /** Feeding permuted changes and equivalent pairings through a per-change function permutes the outcome. */
  lemma Carried<T>(f: NodeChange -> seq<T>, g: NodeChange -> seq<T>, a: seq<NodeChange>, b: seq<NodeChange>)
    requires multiset(a) == multiset(b) && forall c :: f(c) == g(c)
    ensures multiset(FlatMap(f, a)) == multiset(FlatMap(g, b))
  {
    FlatMapPermute(f, a, b);
    FlatMapAgree(f, g, b);
  }

  lemma CorrelationCarries(a: seq<NodeChange>, p: seq<Pairing>, r: Correlated, b: seq<NodeChange>, q: seq<Pairing>, t: Correlated)
    requires multiset(a) == multiset(b) && SamePairings(p, q)
    requires IsCorrelation(a, p, r) && IsCorrelation(b, q, t)
    ensures multiset(r.matches) == multiset(t.matches) && multiset(r.unmatched) == multiset(t.unmatched)
    ensures multiset(FlatMap(OrphansOf(p), a)) == multiset(FlatMap(OrphansOf(q), b))
    ensures multiset(FlatMap(TasksMatched(p), a)) == multiset(FlatMap(TasksMatched(q), b))
  {
    hide Records, IsOrphanList;
    forall c: NodeChange
      ensures MatchOf(p)(c) == MatchOf(q)(c) && UnmatchedOf(p)(c) == UnmatchedOf(q)(c)
      ensures OrphansOf(p)(c) == OrphansOf(q)(c) && TasksMatched(p)(c) == TasksMatched(q)(c)
    {
      assert Records(p, c.key) == Records(q, c.key);
    }
    Carried(MatchOf(p), MatchOf(q), a, b);
    Carried(UnmatchedOf(p), UnmatchedOf(q), a, b);
    Carried(OrphansOf(p), OrphansOf(q), a, b);
    Carried(TasksMatched(p), TasksMatched(q), a, b);
  }

  // ---- orphans ----

  ghost predicate FromChange(changes: seq<NodeChange>, pairings: seq<Pairing>, o: Orphaned, c: NodeChange) {
    c in changes && c.kind == LeafRemoved && !c.structural && o.record in pairings && o.record.node == c.key && o.nodeType == c.nodeType
  }

  lemma CandidateFrom(changes: seq<NodeChange>, pairings: seq<Pairing>, o: Orphaned) returns (c: NodeChange)
    requires OnePerNode(pairings) && o in FlatMap(OrphansOf(pairings), changes)
    ensures FromChange(changes, pairings, o, c)
  {
    FlatMapMember(OrphansOf(pairings), changes, o);
    c :| c in changes && o in OrphansOf(pairings)(c);
    FlatMapMember(AsOrphan(c.nodeType), Records(pairings, c.key), o);
    OneRecord(pairings, c.key);
  }

  /** The task of a candidate determines it. */
  lemma TaskDetermines(changes: seq<NodeChange>, pairings: seq<Pairing>, x: Orphaned, y: Orphaned)
    requires DistinctKeys(changes) && OnePerNode(pairings)
    requires x in FlatMap(OrphansOf(pairings), changes) && y in FlatMap(OrphansOf(pairings), changes)
    requires x.record.task == y.record.task
    ensures x == y
  {
    var c := CandidateFrom(changes, pairings, x);
    var d := CandidateFrom(changes, pairings, y);
    assert x.record == y.record;
    assert c == d;
  }

  lemma OrphanListMembers(changes: seq<NodeChange>, pairings: seq<Pairing>, orphaned: seq<Orphaned>, o: Orphaned)
    requires DistinctKeys(changes) && OnePerNode(pairings)
    requires IsOrphanList(FlatMap(OrphansOf(pairings), changes), FlatMap(TasksMatched(pairings), changes), orphaned)
    ensures o in orphaned <==> o in FlatMap(OrphansOf(pairings), changes) && o.record.task !in FlatMap(TasksMatched(pairings), changes)
  {
    var candidates := FlatMap(OrphansOf(pairings), changes);
    var last := LastFor(candidates, o.record.task);
    if o in candidates && last.Some? {
      TaskDetermines(changes, pairings, o, last.value);
    }
  }

  lemma ByTaskUnique(a: seq<Orphaned>, b: seq<Orphaned>)
    requires ByTask(a) && ByTask(b) && forall o :: o in a <==> o in b
    ensures a == b
  {
    forall i, j | 0 <= i < j < |a|
      ensures a[i] != a[j]
    {
      LessIrreflexive(a[i].record.task);
    }
    forall i, j | 0 <= i < j < |b|
      ensures b[i] != b[j]
    {
      LessIrreflexive(b[i].record.task);
    }
    NoDuplicatesMultiset(a);
    NoDuplicatesMultiset(b);
    assert (set o | o in a) == (set o | o in b);
    OrphanOrdering();
    LeqOrdering();
    forall x, y | x in a && y in a && OrphanLeq(x, y) && OrphanLeq(y, x)
      ensures x == y
    {
      assert x.record.task == y.record.task;
      LessIrreflexive(x.record.task);
      var i :| 0 <= i < |a| && a[i] == x;
      var j :| 0 <= j < |a| && a[j] == y;
    }
    SortedUnique(OrphanLeq, a, b);
  }

  lemma SameOrphans(a: seq<NodeChange>, p: seq<Pairing>, r: Correlated, b: seq<NodeChange>, q: seq<Pairing>, t: Correlated)
    requires DistinctKeys(a) && DistinctKeys(b) && OnePerNode(p) && OnePerNode(q)
    requires multiset(a) == multiset(b) && SamePairings(p, q)
    requires IsCorrelation(a, p, r) && IsCorrelation(b, q, t)
    ensures r.orphaned == t.orphaned
  {
    CorrelationCarries(a, p, r, b, q, t);
    forall o
      ensures o in r.orphaned <==> o in t.orphaned
    {
      OrphanListMembers(a, p, r.orphaned, o);
      OrphanListMembers(b, q, t.orphaned, o);
      SameMembers(FlatMap(OrphansOf(p), a), FlatMap(OrphansOf(q), b), o);
      SameMembers(FlatMap(TasksMatched(p), a), FlatMap(TasksMatched(q), b), o.record.task);
    }
    ByTaskUnique(r.orphaned, t.orphaned);
  }

  // ---- one action per node ----

  /** f yields at most one result per element, under the element's own key. */
  ghost predicate OneEach<T(!new), U(!new)>(f: T -> seq<U>, key: T -> string, named: U -> string, s: seq<T>) {
    forall x :: x in s ==> |f(x)| <= 1 && forall u :: u in f(x) ==> named(u) == key(x)
  }

  ghost predicate DistinctBy<T(!new)>(key: T -> string, s: seq<T>) {
    forall i, j :: 0 <= i < j < |s| ==> key(s[i]) != key(s[j])
  }

  lemma ConcatBy<U(!new)>(named: U -> string, a: seq<U>, b: seq<U>)
    requires DistinctBy(named, a) && |b| <= 1 && forall u, v :: u in a && v in b ==> named(u) != named(v)
    ensures DistinctBy(named, a + b)
  {
    var s := a + b;
    forall i, j | 0 <= i < j < |s|
      ensures named(s[i]) != named(s[j])
    {
      assert s[i] in a;
      assert j >= |a| ==> s[j] in b;
    }
  }

  /** Distinct keys stay distinct through such an f. */
  lemma {:induction false} FlatDistinct<T(!new), U(!new)>(f: T -> seq<U>, key: T -> string, named: U -> string, s: seq<T>)
    requires OneEach(f, key, named, s) && DistinctBy(key, s)
    ensures DistinctBy(named, FlatMap(f, s))
  {
    if s != [] {
      var n := |s| - 1;
      var init, last := s[..n], s[n];
      assert s == init + [last] && s[..|s|] == s;
      FlatDistinct(f, key, named, init);
      FlatMapNext(f, s, n);
      forall u, v | u in FlatMap(f, init) && v in f(last)
        ensures named(u) != named(v)
      {
        FlatMapMember(f, init, u);
        var x :| x in init && u in f(x);
        var i :| 0 <= i < n && init[i] == x;
        assert s[i] == x && s[n] == last;
      }
      ConcatBy(named, FlatMap(f, init), f(last));
    }
  }

  lemma FlatSource<T(!new), U(!new)>(f: T -> seq<U>, key: T -> string, named: U -> string, s: seq<T>, u: U) returns (x: T)
    requires OneEach(f, key, named, s) && u in FlatMap(f, s)
    ensures x in s && u in f(x) && named(u) == key(x)
  {
    FlatMapMember(f, s, u);
    x :| x in s && u in f(x);
  }

  function ActionNode(): Action -> string {
    (a: Action) => a.node
  }

  lemma IdsByNode(s: seq<Action>)
    requires DistinctBy(ActionNode(), s)
    ensures DistinctIds(s)
  {
    forall i, j | 0 <= i < j < |s|
      ensures s[i].node != s[j].node
    {
      assert ActionNode()(s[i]) != ActionNode()(s[j]);
    }
  }

  function MatchKey(): Match -> string {
    (m: Match) => m.change.key
  }

  function OrphanKey(): Orphaned -> string {
    (o: Orphaned) => o.record.node
  }

  function ChangeKey(): NodeChange -> string {
    (c: NodeChange) => c.key
  }

  lemma MatchShape(pairings: seq<Pairing>, c: NodeChange)
    ensures |MatchOf(pairings)(c)| <= 1 && forall m :: m in MatchOf(pairings)(c) ==> m.change == c
    ensures |UnmatchedOf(pairings)(c)| <= 1 && forall d :: d in UnmatchedOf(pairings)(c) ==> d == c
  {
  }

  lemma KeysByChange(changes: seq<NodeChange>)
    requires DistinctKeys(changes)
    ensures DistinctBy(ChangeKey(), changes)
  {
  }

  /** The matches name the matched changes, each once. */
  lemma MatchesDistinct(changes: seq<NodeChange>, pairings: seq<Pairing>)
    requires DistinctKeys(changes)
    ensures DistinctBy(MatchKey(), FlatMap(MatchOf(pairings), changes))
    ensures forall m :: m in FlatMap(MatchOf(pairings), changes) ==> m.change in changes && m in MatchOf(pairings)(m.change)
  {
    hide MatchOf, DistinctBy;
    KeysByChange(changes);
    forall c | c in changes
      ensures |MatchOf(pairings)(c)| <= 1 && forall m :: m in MatchOf(pairings)(c) ==> MatchKey()(m) == ChangeKey()(c)
    {
      MatchShape(pairings, c);
    }
    FlatDistinct(MatchOf(pairings), ChangeKey(), MatchKey(), changes);
    forall m | m in FlatMap(MatchOf(pairings), changes)
      ensures m.change in changes && m in MatchOf(pairings)(m.change)
    {
      FlatMapMember(MatchOf(pairings), changes, m);
      var c :| c in changes && m in MatchOf(pairings)(c);
      MatchShape(pairings, c);
    }
  }

  lemma UnmatchedDistinct(changes: seq<NodeChange>, pairings: seq<Pairing>)
    requires DistinctKeys(changes)
    ensures DistinctBy(ChangeKey(), FlatMap(UnmatchedOf(pairings), changes))
    ensures forall c :: c in FlatMap(UnmatchedOf(pairings), changes) ==> c in changes && c in UnmatchedOf(pairings)(c)
  {
    hide UnmatchedOf, DistinctBy;
    KeysByChange(changes);
    forall c | c in changes
      ensures |UnmatchedOf(pairings)(c)| <= 1 && forall d :: d in UnmatchedOf(pairings)(c) ==> ChangeKey()(d) == ChangeKey()(c)
    {
      MatchShape(pairings, c);
    }
    FlatDistinct(UnmatchedOf(pairings), ChangeKey(), ChangeKey(), changes);
    forall d | d in FlatMap(UnmatchedOf(pairings), changes)
      ensures d in changes && d in UnmatchedOf(pairings)(d)
    {
      FlatMapMember(UnmatchedOf(pairings), changes, d);
      var c :| c in changes && d in UnmatchedOf(pairings)(c);
      MatchShape(pairings, c);
    }
  }

  lemma OrphansDistinct(changes: seq<NodeChange>, pairings: seq<Pairing>, r: Correlated)
    requires DistinctKeys(changes) && OnePerNode(pairings) && IsCorrelation(changes, pairings, r)
    ensures DistinctBy(OrphanKey(), r.orphaned)
  {
    forall i, j | 0 <= i < j < |r.orphaned|
      ensures r.orphaned[i].record.node != r.orphaned[j].record.node
    {
      var x, y := r.orphaned[i], r.orphaned[j];
      OrphanListMembers(changes, pairings, r.orphaned, x);
      OrphanListMembers(changes, pairings, r.orphaned, y);
      var c := CandidateFrom(changes, pairings, x);
      var d := CandidateFrom(changes, pairings, y);
      LessIrreflexive(x.record.task);
      assert x.record.task != y.record.task;
      assert x.record != y.record;
    }
  }

  lemma SingleFlat<T, U>(f: T -> seq<U>, s: seq<T>)
    requires |s| <= 1 && forall x :: x in s ==> |f(x)| <= 1
    ensures |FlatMap(f, s)| <= 1
  {
    if s != [] {
      assert s[..0] == [] && s[..1] == s;
      FlatMapNext(f, s, 0);
    }
  }

  /** One match comes to at most one action, named after the change. */
  lemma OneFromMatch(pairings: seq<Pairing>, graph: Specs, m: Match)
    requires OnePerNode(pairings) && m in MatchOf(pairings)(m.change)
    ensures |MatchActions(graph)(m)| <= 1
    ensures forall a :: a in MatchActions(graph)(m) ==> a.node == m.change.key
  {
    hide FlatMap, SortBy, OnePerNode;
    OneRecord(pairings, m.change.key);
    assert |m.records| == |multiset(m.records)| == |Records(pairings, m.change.key)|;
    SingleFlat(RecordActions(m.change, graph), m.records);
    forall a | a in MatchActions(graph)(m)
      ensures a.node == m.change.key
    {
      FlatMapMember(RecordActions(m.change, graph), m.records, a);
    }
  }

  /** What an action's node tells about where it comes from. */
  datatype Origin = FromMatch | FromOrphan | FromUnmatched

  ghost predicate Comes(r: Correlated, graph: Specs, a: Action, origin: Origin) {
    match origin
    case FromMatch => exists m :: m in r.matches && a in MatchActions(graph)(m) && a.node == m.change.key
    case FromOrphan => exists o :: o in r.orphaned && a in OrphanActions()(o) && a.node == o.record.node
    case FromUnmatched => exists c :: c in r.unmatched && a in UnmatchedActions(graph)(c) && a.node == c.key
  }

  lemma MatchOneEach(changes: seq<NodeChange>, pairings: seq<Pairing>, graph: Specs, matches: seq<Match>)
    requires DistinctKeys(changes) && OnePerNode(pairings) && matches == FlatMap(MatchOf(pairings), changes)
    ensures OneEach(MatchActions(graph), MatchKey(), ActionNode(), matches)
  {
    MatchesDistinct(changes, pairings);
    hide MatchActions, MatchOf, DistinctBy;
    forall m | m in matches
      ensures |MatchActions(graph)(m)| <= 1 && forall a :: a in MatchActions(graph)(m) ==> ActionNode()(a) == MatchKey()(m)
    {
      OneFromMatch(pairings, graph, m);
    }
  }

  lemma OrphanOneEach(s: seq<Orphaned>)
    ensures OneEach(OrphanActions(), OrphanKey(), ActionNode(), s)
  {
  }

  lemma UnmatchedOneEach(graph: Specs, s: seq<NodeChange>)
    ensures OneEach(UnmatchedActions(graph), ChangeKey(), ActionNode(), s)
  {
  }

  lemma MatchPart(changes: seq<NodeChange>, pairings: seq<Pairing>, r: Correlated, graph: Specs)
    requires DistinctKeys(changes) && OnePerNode(pairings) && IsCorrelation(changes, pairings, r)
    ensures DistinctIds(FlatMap(MatchActions(graph), r.matches))
    ensures forall a :: a in FlatMap(MatchActions(graph), r.matches) ==> Comes(r, graph, a, FromMatch)
  {
    hide MatchActions, MatchOf, IsOrphanList, DistinctBy, DistinctIds, OneEach;
    MatchesDistinct(changes, pairings);
    MatchOneEach(changes, pairings, graph, r.matches);
    FlatDistinct(MatchActions(graph), MatchKey(), ActionNode(), r.matches);
    IdsByNode(FlatMap(MatchActions(graph), r.matches));
    forall a | a in FlatMap(MatchActions(graph), r.matches)
      ensures Comes(r, graph, a, FromMatch)
    {
      var m := FlatSource(MatchActions(graph), MatchKey(), ActionNode(), r.matches, a);
    }
  }

  lemma OrphanPart(changes: seq<NodeChange>, pairings: seq<Pairing>, r: Correlated, graph: Specs)
    requires DistinctKeys(changes) && OnePerNode(pairings) && IsCorrelation(changes, pairings, r)
    ensures DistinctIds(FlatMap(OrphanActions(), r.orphaned))
    ensures forall a :: a in FlatMap(OrphanActions(), r.orphaned) ==> Comes(r, graph, a, FromOrphan)
  {
    hide IsCorrelation, OrphanActions, DistinctBy, DistinctIds, OneEach;
    OrphansDistinct(changes, pairings, r);
    OrphanOneEach(r.orphaned);
    FlatDistinct(OrphanActions(), OrphanKey(), ActionNode(), r.orphaned);
    IdsByNode(FlatMap(OrphanActions(), r.orphaned));
    forall a | a in FlatMap(OrphanActions(), r.orphaned)
      ensures Comes(r, graph, a, FromOrphan)
    {
      var o := FlatSource(OrphanActions(), OrphanKey(), ActionNode(), r.orphaned, a);
    }
  }

  lemma UnmatchedPart(changes: seq<NodeChange>, pairings: seq<Pairing>, r: Correlated, graph: Specs)
    requires DistinctKeys(changes) && IsCorrelation(changes, pairings, r)
    ensures DistinctIds(FlatMap(UnmatchedActions(graph), r.unmatched))
    ensures forall a :: a in FlatMap(UnmatchedActions(graph), r.unmatched) ==> Comes(r, graph, a, FromUnmatched)
  {
    hide UnmatchedActions, UnmatchedOf, IsOrphanList, DistinctBy, DistinctIds, OneEach;
    UnmatchedDistinct(changes, pairings);
    UnmatchedOneEach(graph, r.unmatched);
    FlatDistinct(UnmatchedActions(graph), ChangeKey(), ActionNode(), r.unmatched);
    IdsByNode(FlatMap(UnmatchedActions(graph), r.unmatched));
    forall a | a in FlatMap(UnmatchedActions(graph), r.unmatched)
      ensures Comes(r, graph, a, FromUnmatched)
    {
      var c := FlatSource(UnmatchedActions(graph), ChangeKey(), ActionNode(), r.unmatched, a);
    }
  }

  /** Each part of the raw list names its nodes once. */
  lemma PartsDistinct(changes: seq<NodeChange>, pairings: seq<Pairing>, r: Correlated, graph: Specs)
    requires DistinctKeys(changes) && OnePerNode(pairings) && IsCorrelation(changes, pairings, r)
    ensures DistinctIds(FlatMap(MatchActions(graph), r.matches)) && DistinctIds(FlatMap(OrphanActions(), r.orphaned))
    ensures DistinctIds(FlatMap(UnmatchedActions(graph), r.unmatched))
    ensures forall a :: a in FlatMap(MatchActions(graph), r.matches) ==> Comes(r, graph, a, FromMatch)
    ensures forall a :: a in FlatMap(OrphanActions(), r.orphaned) ==> Comes(r, graph, a, FromOrphan)
    ensures forall a :: a in FlatMap(UnmatchedActions(graph), r.unmatched) ==> Comes(r, graph, a, FromUnmatched)
  {
    hide DistinctIds, Comes, IsCorrelation;
    MatchPart(changes, pairings, r, graph);
    OrphanPart(changes, pairings, r, graph);
    UnmatchedPart(changes, pairings, r, graph);
  }

  lemma OriginKind(changes: seq<NodeChange>, pairings: seq<Pairing>, r: Correlated, graph: Specs, a: Action, origin: Origin)
    returns (c: NodeChange)
    requires DistinctKeys(changes) && OnePerNode(pairings) && IsCorrelation(changes, pairings, r) && Comes(r, graph, a, origin)
    ensures c in changes && c.key == a.node
    ensures match origin
            case FromMatch => c.kind != LeafRemoved && Records(pairings, c.key) != []
            case FromOrphan => c.kind == LeafRemoved
            case FromUnmatched => c.kind != LeafRemoved && Records(pairings, c.key) == []
  {
    match origin
    case FromMatch =>
      MatchesDistinct(changes, pairings);
      var m :| m in r.matches && a in MatchActions(graph)(m) && a.node == m.change.key;
      c := m.change;
    case FromOrphan =>
      var o :| o in r.orphaned && a in OrphanActions()(o) && a.node == o.record.node;
      OrphanListMembers(changes, pairings, r.orphaned, o);
      c := CandidateFrom(changes, pairings, o);
    case FromUnmatched =>
      UnmatchedDistinct(changes, pairings);
      c :| c in r.unmatched && a in UnmatchedActions(graph)(c) && a.node == c.key;
  }

  /** Actions of different parts have different nodes. */
  lemma OriginsApart(changes: seq<NodeChange>, pairings: seq<Pairing>, r: Correlated, graph: Specs,
                     a: Action, x: Origin, b: Action, y: Origin)
    requires DistinctKeys(changes) && OnePerNode(pairings) && IsCorrelation(changes, pairings, r)
    requires Comes(r, graph, a, x) && Comes(r, graph, b, y) && x != y
    ensures a.node != b.node
  {
    hide Comes, IsCorrelation, OnePerNode, Records;
    var c := OriginKind(changes, pairings, r, graph, a, x);
    var d := OriginKind(changes, pairings, r, graph, b, y);
  }

  lemma ConcatDistinct(a: seq<Action>, b: seq<Action>)
    requires DistinctIds(a) && DistinctIds(b) && forall x, y :: x in a && y in b ==> x.node != y.node
    ensures DistinctIds(a + b)
  {
    var s := a + b;
    forall i, j | 0 <= i < j < |s|
      ensures s[i].node != s[j].node
    {
      if i < |a| <= j {
        assert s[i] in a && s[j] in b;
      }
    }
  }

  /** A batch of actions names each node once. */
  lemma RawDistinct(changes: seq<NodeChange>, pairings: seq<Pairing>, r: Correlated, graph: Specs)
    requires DistinctKeys(changes) && OnePerNode(pairings) && IsCorrelation(changes, pairings, r)
    ensures DistinctIds(RawActions(r, graph))
  {
    PartsDistinct(changes, pairings, r, graph);
    hide Comes, DistinctIds, IsCorrelation;
    var ms, os, us := FlatMap(MatchActions(graph), r.matches), FlatMap(OrphanActions(), r.orphaned),
                      FlatMap(UnmatchedActions(graph), r.unmatched);
    forall x, y | x in ms && y in os
      ensures x.node != y.node
    {
      OriginsApart(changes, pairings, r, graph, x, FromMatch, y, FromOrphan);
    }
    ConcatDistinct(ms, os);
    forall x, y | x in ms + os && y in us
      ensures x.node != y.node
    {
      if x in ms {
        OriginsApart(changes, pairings, r, graph, x, FromMatch, y, FromUnmatched);
      } else {
        OriginsApart(changes, pairings, r, graph, x, FromOrphan, y, FromUnmatched);
      }
    }
    ConcatDistinct(ms + os, us);
  }

  lemma {:induction false} AddOnDistinct(changes: seq<NodeChange>, graph: Specs, actions: seq<Action>)
    requires DistinctIds(actions)
    ensures DistinctIds(FlatMap(AddOn(changes, graph), actions))
    ensures |FlatMap(AddOn(changes, graph), actions)| == |actions|
    ensures forall i :: 0 <= i < |actions| ==> FlatMap(AddOn(changes, graph), actions)[i].node == actions[i].node
  {
    if actions != [] {
      var n := |actions| - 1;
      AddOnDistinct(changes, graph, actions[..n]);
      FlatMapNext(AddOn(changes, graph), actions, n);
      assert actions[..|actions|] == actions;
    }
  }

  lemma NodesSeparate(actions: seq<Action>)
    requires DistinctIds(actions)
    ensures Separates(ActionLeq, actions)
  {
    DistinctElements(actions);
    forall x, y | x in actions && y in actions && ActionLeq(x, y) && ActionLeq(y, x)
      ensures x == y
    {
      LexTotal(SortKey(x), SortKey(y));
      assert SortKey(x)[4] == SortKey(y)[4];
    }
  }

  lemma PermutedDistinct(a: seq<Action>, b: seq<Action>)
    requires DistinctIds(a) && multiset(a) == multiset(b)
    ensures DistinctIds(b)
  {
    DistinctElements(a);
    NoDuplicatesMultiset(a);
    forall x | x in b
      ensures multiset(b)[x] == 1 && x in a
    {
      SameMembers(a, b, x);
    }
    MultisetNoDuplicates(b);
    forall i, j | 0 <= i < j < |b|
      ensures b[i].node != b[j].node
    {
      assert b[i] in b && b[j] in b && b[i] != b[j];
    }
  }

  /** The classified list names each node once, as the builder's batch requires. */
  lemma ClassifiedDistinct(changes: seq<NodeChange>, pairings: seq<Pairing>, r: Correlated, graph: Specs)
    requires DistinctKeys(changes) && OnePerNode(pairings) && IsCorrelation(changes, pairings, r) && Classified(r, graph).Ok?
    ensures DistinctIds(Classified(r, graph).value)
  {
    RawDistinct(changes, pairings, r, graph);
    var flows := ChangesOf(r.matches, r.unmatched);
    AddOnDistinct(flows, graph, RawActions(r, graph));
    PermutedDistinct(FlatMap(AddOn(flows, graph), RawActions(r, graph)), Classified(r, graph).value);
  }

  // ---- canonical planning ----

  lemma ConcatMultisets<T>(a: seq<T>, b: seq<T>, c: seq<T>, d: seq<T>)
    requires multiset(a) == multiset(c) && multiset(b) == multiset(d)
    ensures multiset(a + b) == multiset(c + d)
  {
  }

  lemma SameRaw(r: Correlated, t: Correlated, graph: Specs)
    requires multiset(r.matches) == multiset(t.matches) && multiset(r.unmatched) == multiset(t.unmatched) && r.orphaned == t.orphaned
    ensures multiset(RawActions(r, graph)) == multiset(RawActions(t, graph))
    ensures multiset(Claims(r, graph)) == multiset(Claims(t, graph))
  {
    FlatMapPermute(MatchActions(graph), r.matches, t.matches);
    FlatMapPermute(UnmatchedActions(graph), r.unmatched, t.unmatched);
    FlatMapPermute(MatchClaims(graph), r.matches, t.matches);
    var os := FlatMap(OrphanActions(), r.orphaned);
    ConcatMultisets(FlatMap(MatchActions(graph), r.matches), os, FlatMap(MatchActions(graph), t.matches), os);
    ConcatMultisets(FlatMap(MatchActions(graph), r.matches) + os, FlatMap(UnmatchedActions(graph), r.unmatched),
                    FlatMap(MatchActions(graph), t.matches) + os, FlatMap(UnmatchedActions(graph), t.unmatched));
  }

  lemma ChangesOfMember(r: Correlated, c: NodeChange)
    ensures c in ChangesOf(r.matches, r.unmatched) <==> c in r.unmatched || exists m :: m in r.matches && m.change == c
  {
    var all := ChangesOf(r.matches, r.unmatched);
    if m :| m in r.matches && m.change == c {
      var i :| 0 <= i < |r.matches| && r.matches[i] == m;
      assert all[i] == c;
    }
    if c in r.unmatched {
      var i :| 0 <= i < |r.unmatched| && r.unmatched[i] == c;
      assert all[|r.matches| + i] == c;
    }
    if c in all {
      var i :| 0 <= i < |all| && all[i] == c;
      if i < |r.matches| {
        assert r.matches[i] in r.matches;
      } else {
        assert r.unmatched[i - |r.matches|] == c;
      }
    }
  }

  lemma SameFlows(r: Correlated, t: Correlated, graph: Specs, comp: string)
    requires multiset(r.matches) == multiset(t.matches) && multiset(r.unmatched) == multiset(t.unmatched)
    ensures FlowsNaming(ChangesOf(r.matches, r.unmatched), graph, comp) == FlowsNaming(ChangesOf(t.matches, t.unmatched), graph, comp)
  {
    forall c
      ensures c in ChangesOf(r.matches, r.unmatched) <==> c in ChangesOf(t.matches, t.unmatched)
    {
      ChangesOfMember(r, c);
      ChangesOfMember(t, c);
      SameMembers(r.unmatched, t.unmatched, c);
      forall m: Match
        ensures m in r.matches <==> m in t.matches
      {
        SameMembers(r.matches, t.matches, m);
      }
    }
  }

  lemma SameAddOn(r: Correlated, t: Correlated, graph: Specs, actions: seq<Action>)
    requires multiset(r.matches) == multiset(t.matches) && multiset(r.unmatched) == multiset(t.unmatched)
    ensures FlatMap(AddOn(ChangesOf(r.matches, r.unmatched), graph), actions) == FlatMap(AddOn(ChangesOf(t.matches, t.unmatched), graph), actions)
  {
    var f, g := AddOn(ChangesOf(r.matches, r.unmatched), graph), AddOn(ChangesOf(t.matches, t.unmatched), graph);
    forall a | a in actions
      ensures f(a) == g(a)
    {
      SameFlows(r, t, graph, a.node);
    }
    FlatMapAgree(f, g, actions);
  }

  lemma SameClassification(changes: seq<NodeChange>, pairings: seq<Pairing>, r: Correlated, t: Correlated, graph: Specs)
    requires DistinctKeys(changes) && OnePerNode(pairings) && IsCorrelation(changes, pairings, r)
    requires multiset(r.matches) == multiset(t.matches) && multiset(r.unmatched) == multiset(t.unmatched) && r.orphaned == t.orphaned
    ensures Classified(r, graph) == Classified(t, graph)
  {
    SameRaw(r, t, graph);
    var cr, ct := Claims(r, graph), Claims(t, graph);
    assert |cr| == |multiset(cr)| == |multiset(ct)| == |ct|;
    if cr != [] {
      LeqOrdering();
      SortCanonical(Leq, cr, ct);
    } else {
      hide Claims, RawActions;
      var raw, tew := RawActions(r, graph), RawActions(t, graph);
      var f, g := AddOn(ChangesOf(r.matches, r.unmatched), graph), AddOn(ChangesOf(t.matches, t.unmatched), graph);
      RawDistinct(changes, pairings, r, graph);
      AddOnDistinct(ChangesOf(r.matches, r.unmatched), graph, raw);
      NodesSeparate(FlatMap(f, raw));
      FlatMapPermute(f, raw, tew);
      SameAddOn(r, t, graph, tew);
      ActionOrdering();
      SortCanonical(ActionLeq, FlatMap(f, raw), FlatMap(g, tew));
    }
  }

  lemma PermutedKeys(a: seq<NodeChange>, b: seq<NodeChange>)
    requires DistinctKeys(a) && multiset(a) == multiset(b)
    ensures DistinctKeys(b)
  {
    forall i, j | 0 <= i < j < |a|
      ensures a[i] != a[j]
    {
    }
    NoDuplicatesMultiset(a);
    forall x | x in b
      ensures multiset(b)[x] == 1 && x in a
    {
      SameMembers(a, b, x);
    }
    MultisetNoDuplicates(b);
    forall i, j | 0 <= i < j < |b|
      ensures b[i].key != b[j].key
    {
      assert b[i] in a && b[j] in a && b[i] != b[j];
    }
  }

  lemma PermutedPairings(a: seq<Pairing>, b: seq<Pairing>)
    requires OnePerNode(a) && multiset(a) == multiset(b)
    ensures OnePerNode(b)
  {
    forall i, j | 0 <= i < j < |a|
      ensures a[i] != a[j]
    {
    }
    NoDuplicatesMultiset(a);
    forall x | x in b
      ensures multiset(b)[x] == 1 && x in a
    {
      SameMembers(a, b, x);
    }
    MultisetNoDuplicates(b);
    forall i, j | 0 <= i < j < |b|
      ensures b[i].node != b[j].node && b[i].task != b[j].task
    {
      assert b[i] in a && b[j] in a && b[i] != b[j];
    }
  }

  /** Permuting the changes and the pairings gives the same sorted actions, or the same refusal with all claimed tasks. */
  lemma PlanningCanonical(a: seq<NodeChange>, p: seq<Pairing>, r: Correlated, b: seq<NodeChange>, q: seq<Pairing>, t: Correlated, graph: Specs)
    requires DistinctKeys(a) && OnePerNode(p) && multiset(a) == multiset(b) && multiset(p) == multiset(q)
    requires IsCorrelation(a, p, r) && IsCorrelation(b, q, t)
    ensures Classified(r, graph) == Classified(t, graph)
  {
    PermutedKeys(a, b);
    PermutedPairings(p, q);
    forall node
      ensures Records(p, node) == Records(q, node)
    {
      SameRecords(p, q, node);
    }
    CorrelationCarries(a, p, r, b, q, t);
    SameOrphans(a, p, r, b, q, t);
    SameClassification(a, p, r, t, graph);
  }
}
