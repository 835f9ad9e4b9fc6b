/**
 Correlating the changes of a diff with the journal's pairings by node id.
 */
module Matcher {
  import opened Results
  import opened Order
  import opened Bags
  import opened Merkle
  import opened Resolver

  /** A leaf change with its owning module's name; `structural` changes concern the envelope files only. */
  datatype NodeChange = NodeChange(key: string, kind: ChangeType, nodeType: string, mod: string, structural: bool,
                                   oldHash: string, newHash: string)

  datatype Match = Match(change: NodeChange, records: seq<Pairing>)

  datatype Orphaned = Orphaned(record: Pairing, nodeType: string)

  function WithNode(node: string): Pairing -> seq<Pairing> {
    (p: Pairing) => if p.node == node then [p] else []
  }

  /** The pairings of one node, in journal order. */
  function Records(pairings: seq<Pairing>, node: string): seq<Pairing> {
    FlatMap(WithNode(node), pairings)
  }

  predicate TaskLeq(a: Pairing, b: Pairing) {
    Leq(a.task, b.task)
  }

  function MatchOf(pairings: seq<Pairing>): NodeChange -> seq<Match> {
    (c: NodeChange) =>
      if c.structural || c.kind == LeafRemoved || Records(pairings, c.key) == [] then []
      else [Match(c, SortBy(TaskLeq, Records(pairings, c.key)))]
  }

  function UnmatchedOf(pairings: seq<Pairing>): NodeChange -> seq<NodeChange> {
    (c: NodeChange) =>
      if c.structural || c.kind == LeafRemoved || Records(pairings, c.key) != [] then [] else [c]
  }

  function AsOrphan(nodeType: string): Pairing -> seq<Orphaned> {
    (p: Pairing) => [Orphaned(p, nodeType)]
  }

  function OrphansOf(pairings: seq<Pairing>): NodeChange -> seq<Orphaned> {
    (c: NodeChange) =>
      if c.structural || c.kind != LeafRemoved then [] else FlatMap(AsOrphan(c.nodeType), Records(pairings, c.key))
  }

  function PairedTask(): Pairing -> seq<string> {
    (p: Pairing) => [p.task]
  }

  function TasksMatched(pairings: seq<Pairing>): NodeChange -> seq<string> {
    (c: NodeChange) =>
      if c.structural || c.kind == LeafRemoved then [] else FlatMap(PairedTask(), Records(pairings, c.key))
  }

  /** The last candidate with this task. */
  function LastFor(candidates: seq<Orphaned>, task: string): (r: Option<Orphaned>)
    ensures r.Some? ==> r.value in candidates && r.value.record.task == task
    ensures r.None? ==> forall o :: o in candidates ==> o.record.task != task
  {
    if candidates == [] then
      None
    else
      var init, last := candidates[..|candidates| - 1], candidates[|candidates| - 1];
      assert candidates == init + [last];
      if last.record.task == task then Some(last) else LastFor(init, task)
  }

  predicate OrphanLeq(a: Orphaned, b: Orphaned) {
    Leq(a.record.task, b.record.task)
  }

  ghost predicate ByTask(s: seq<Orphaned>) {
    forall i, j :: 0 <= i < j < |s| ==> Less(s[i].record.task, s[j].record.task)
  }

  /** One orphan per task a removed node is paired with, unless a surviving change matched that task. */
  ghost predicate IsOrphanList(candidates: seq<Orphaned>, matched: seq<string>, orphaned: seq<Orphaned>) {
    && ByTask(orphaned)
    && (forall o :: o in orphaned <==> o.record.task !in matched && LastFor(candidates, o.record.task) == Some(o))
  }

  /** The maps the loop keeps: tasks matched so far, and the latest candidate of each task not matched. */
  ghost predicate Tracks(candidates: seq<Orphaned>, matched: seq<string>, tasks: set<string>, orphans: map<string, Orphaned>) {
    && (forall t :: t in tasks <==> t in matched)
    && (forall t :: t in orphans <==> t !in matched && LastFor(candidates, t).Some?)
    && (forall t :: t in orphans ==> LastFor(candidates, t) == Some(orphans[t]))
  }

  lemma LastForNext(candidates: seq<Orphaned>, o: Orphaned, task: string)
    ensures LastFor(candidates + [o], task) == if o.record.task == task then Some(o) else LastFor(candidates, task)
  {
    assert (candidates + [o])[..|candidates|] == candidates;
  }

  method AddOrphans(found: seq<Pairing>, nodeType: string, tasks: set<string>, orphans: map<string, Orphaned>,
                    ghost candidates: seq<Orphaned>, ghost matched: seq<string>) returns (r: map<string, Orphaned>)
    requires Tracks(candidates, matched, tasks, orphans)
    ensures Tracks(candidates + FlatMap(AsOrphan(nodeType), found), matched, tasks, r)
  {
    r := orphans;
    assert candidates + [] == candidates;
    for k := 0 to |found|
      invariant Tracks(candidates + FlatMap(AsOrphan(nodeType), found[..k]), matched, tasks, r)
    {
      FlatMapNext(AsOrphan(nodeType), found, k);
      ghost var before := candidates + FlatMap(AsOrphan(nodeType), found[..k]);
      var o := Orphaned(found[k], nodeType);
      assert candidates + FlatMap(AsOrphan(nodeType), found[..k + 1]) == before + [o];
      TrackOrphan(before, matched, tasks, r, o);
      if o.record.task !in tasks {
        r := r[o.record.task := o];
      }
    }
    assert found[..|found|] == found;
  }

  lemma TrackOrphan(candidates: seq<Orphaned>, matched: seq<string>, tasks: set<string>, orphans: map<string, Orphaned>, o: Orphaned)
    requires Tracks(candidates, matched, tasks, orphans)
    ensures Tracks(candidates + [o], matched, tasks, if o.record.task !in tasks then orphans[o.record.task := o] else orphans)
  {
    forall t
      ensures LastFor(candidates + [o], t) == if o.record.task == t then Some(o) else LastFor(candidates, t)
    {
      LastForNext(candidates, o, t);
    }
  }

  lemma TrackMatch(candidates: seq<Orphaned>, matched: seq<string>, tasks: set<string>, orphans: map<string, Orphaned>, task: string)
    requires Tracks(candidates, matched, tasks, orphans)
    ensures Tracks(candidates, matched + [task], tasks + {task}, orphans - {task})
  {
    hide LastFor;
  }

  method ClaimTasks(found: seq<Pairing>, tasks: set<string>, orphans: map<string, Orphaned>,
                    ghost candidates: seq<Orphaned>, ghost matched: seq<string>) returns (t: set<string>, r: map<string, Orphaned>)
    requires Tracks(candidates, matched, tasks, orphans)
    ensures Tracks(candidates, matched + FlatMap(PairedTask(), found), t, r)
  {
    t, r := tasks, orphans;
    assert matched + [] == matched;
    for k := 0 to |found|
      invariant Tracks(candidates, matched + FlatMap(PairedTask(), found[..k]), t, r)
    {
      FlatMapNext(PairedTask(), found, k);
      ghost var before := matched + FlatMap(PairedTask(), found[..k]);
      assert matched + FlatMap(PairedTask(), found[..k + 1]) == before + [found[k].task];
      TrackMatch(candidates, before, t, r, found[k].task);
      t, r := t + {found[k].task}, r - {found[k].task};
    }
    assert found[..|found|] == found;
  }

  function Indexed(index: map<string, seq<Pairing>>, node: string): seq<Pairing> {
    if node in index then index[node] else []
  }

  method IndexByNode(pairings: seq<Pairing>) returns (index: map<string, seq<Pairing>>)
    ensures forall node :: Indexed(index, node) == Records(pairings, node)
  {
    index := map[];
    for k := 0 to |pairings|
      invariant forall node :: Indexed(index, node) == Records(pairings[..k], node)
    {
      var p := pairings[k];
      forall node
        ensures Records(pairings[..k + 1], node) == Records(pairings[..k], node) + if p.node == node then [p] else []
      {
        FlatMapNext(WithNode(node), pairings, k);
      }
      ghost var before := index;
      index := index[p.node := Indexed(index, p.node) + [p]];
      forall node
        ensures Indexed(index, node) == Records(pairings[..k + 1], node)
      {
        assert Indexed(index, node) == Indexed(before, node) + if p.node == node then [p] else [];
      }
    }
    assert pairings[..|pairings|] == pairings;
  }

  datatype Correlated = Correlated(matches: seq<Match>, unmatched: seq<NodeChange>, orphaned: seq<Orphaned>)

  ghost predicate IsCorrelation(changes: seq<NodeChange>, pairings: seq<Pairing>, r: Correlated) {
    && r.matches == FlatMap(MatchOf(pairings), changes)
    && r.unmatched == FlatMap(UnmatchedOf(pairings), changes)
    && IsOrphanList(FlatMap(OrphansOf(pairings), changes), FlatMap(TasksMatched(pairings), changes), r.orphaned)
  }

  lemma OrphanOrdering()
    ensures Ordering(OrphanLeq)
  {
    LeqOrdering();
    forall x, y, z | OrphanLeq(x, y) && OrphanLeq(y, z)
      ensures OrphanLeq(x, z)
    {
      assert Leq(x.record.task, y.record.task) && Leq(y.record.task, z.record.task);
    }
    forall x: Orphaned, y: Orphaned
      ensures OrphanLeq(x, y) || OrphanLeq(y, x)
    {
      assert Leq(x.record.task, y.record.task) || Leq(y.record.task, x.record.task);
    }
  }

  /** The values of the map, in whatever order it is walked, sorted. */
  method SortedOrphans(orphans: map<string, Orphaned>) returns (r: seq<Orphaned>)
    requires forall t :: t in orphans ==> orphans[t].record.task == t
    ensures ByTask(r) && forall o :: o in r <==> o.record.task in orphans && orphans[o.record.task] == o
  {
    var out: seq<Orphaned> := [];
    var todo := orphans.Keys;
    while todo != {}
      invariant todo <= orphans.Keys && NoDuplicates(out)
      invariant forall o :: o in out <==> o.record.task in orphans.Keys - todo && orphans[o.record.task] == o
    {
      var t :| t in todo;
      assert orphans[t] !in out;
      out := out + [orphans[t]];
      todo := todo - {t};
    }
    r := SortBy(OrphanLeq, out);
    OrphanOrdering();
    SortBySorted(OrphanLeq, out);
    StrictByTask(orphans, out, r);
  }

  lemma StrictByTask(orphans: map<string, Orphaned>, out: seq<Orphaned>, r: seq<Orphaned>)
    requires NoDuplicates(out) && forall o :: o in out <==> o.record.task in orphans && orphans[o.record.task] == o
    requires SortedBy(OrphanLeq, r) && multiset(r) == multiset(out)
    ensures ByTask(r) && forall o :: o in r <==> o.record.task in orphans && orphans[o.record.task] == o
  {
    assert forall o :: o in r <==> o in multiset(r);
    assert forall o :: o in out <==> o in multiset(out);
    NoDuplicatesMultiset(out);
    MultisetNoDuplicates(r);
    forall i, j | 0 <= i < j < |r|
      ensures Less(r[i].record.task, r[j].record.task)
    {
      assert r[i] in r && r[j] in r && OrphanLeq(r[i], r[j]);
    }
  }

  /** What one change contributes to each list. */
  lemma OneChange(pairings: seq<Pairing>, c: NodeChange)
    ensures var found := Records(pairings, c.key);
            && MatchOf(pairings)(c) == (if c.structural || c.kind == LeafRemoved || found == [] then [] else [Match(c, SortBy(TaskLeq, found))])
            && UnmatchedOf(pairings)(c) == (if c.structural || c.kind == LeafRemoved || found != [] then [] else [c])
            && OrphansOf(pairings)(c) == (if c.structural || c.kind != LeafRemoved then [] else FlatMap(AsOrphan(c.nodeType), found))
            && TasksMatched(pairings)(c) == (if c.structural || c.kind == LeafRemoved then [] else FlatMap(PairedTask(), found))
            && (found == [] ==> FlatMap(AsOrphan(c.nodeType), found) == [] && FlatMap(PairedTask(), found) == [])
  {
  }

  /** One change: what it adds to the lists, and what it does to the maps. */
  method MatchOne(c: NodeChange, found: seq<Pairing>, tasks: set<string>, orphans: map<string, Orphaned>,
                  ghost pairings: seq<Pairing>, ghost candidates: seq<Orphaned>, ghost claimed: seq<string>)
    returns (m: seq<Match>, u: seq<NodeChange>, t: set<string>, o: map<string, Orphaned>)
    requires found == Records(pairings, c.key) && Tracks(candidates, claimed, tasks, orphans)
    ensures m == MatchOf(pairings)(c) && u == UnmatchedOf(pairings)(c)
    ensures Tracks(candidates + OrphansOf(pairings)(c), claimed + TasksMatched(pairings)(c), t, o)
  {
    hide Tracks, Records, MatchOf, UnmatchedOf, OrphansOf, TasksMatched;
    OneChange(pairings, c);
    m, u, t, o := [], [], tasks, orphans;
    assert candidates + [] == candidates && claimed + [] == claimed;
    if !c.structural && |found| > 0 {
      if c.kind == LeafRemoved {
        o := AddOrphans(found, c.nodeType, tasks, orphans, candidates, claimed);
      } else {
        m := [Match(c, SortBy(TaskLeq, found))];
        t, o := ClaimTasks(found, tasks, orphans, candidates, claimed);
      }
    } else if !c.structural && c.kind != LeafRemoved {
      u := [c];
    }
  }

  /** Never fails.  Matches and unmatched changes come in the order of the diff, orphans by task. */
  method MatchNodes(changes: seq<NodeChange>, pairings: seq<Pairing>) returns (r: Correlated)
    ensures IsCorrelation(changes, pairings, r)
  {
    hide Tracks, Records, MatchOf, UnmatchedOf, OrphansOf, TasksMatched;
    var index := IndexByNode(pairings);
    var tasks: set<string>, orphans: map<string, Orphaned> := {}, map[];
    var matches: seq<Match>, unmatched: seq<NodeChange> := [], [];
    ghost var candidates: seq<Orphaned>, claimed: seq<string> := [], [];
    NothingTracked();
    for k := 0 to |changes|
      invariant matches == FlatMap(MatchOf(pairings), changes[..k])
      invariant unmatched == FlatMap(UnmatchedOf(pairings), changes[..k])
      invariant candidates == FlatMap(OrphansOf(pairings), changes[..k])
      invariant claimed == FlatMap(TasksMatched(pairings), changes[..k])
      invariant Tracks(candidates, claimed, tasks, orphans)
    {
      var c := changes[k];
      FlatMapNext(MatchOf(pairings), changes, k);
      FlatMapNext(UnmatchedOf(pairings), changes, k);
      FlatMapNext(OrphansOf(pairings), changes, k);
      FlatMapNext(TasksMatched(pairings), changes, k);
      assert Indexed(index, c.key) == Records(pairings, c.key);
      var m, u;
      m, u, tasks, orphans := MatchOne(c, Indexed(index, c.key), tasks, orphans, pairings, candidates, claimed);
      matches, unmatched := matches + m, unmatched + u;
      candidates, claimed := candidates + OrphansOf(pairings)(c), claimed + TasksMatched(pairings)(c);
    }
    assert changes[..|changes|] == changes;
    var orphaned := FinishOrphans(candidates, claimed, tasks, orphans);
    return Correlated(matches, unmatched, orphaned);
  }

  lemma NothingTracked()
    ensures Tracks([], [], {}, map[])
  {
  }

  method FinishOrphans(ghost candidates: seq<Orphaned>, ghost claimed: seq<string>, tasks: set<string>, orphans: map<string, Orphaned>)
    returns (orphaned: seq<Orphaned>)
    requires Tracks(candidates, claimed, tasks, orphans)
    ensures IsOrphanList(candidates, claimed, orphaned)
  {
    orphaned := SortedOrphans(orphans);
  }

  // ---- the order of the matches ----

  predicate IsMatched(pairings: seq<Pairing>, c: NodeChange) {
    !c.structural && c.kind != LeafRemoved && Records(pairings, c.key) != []
  }

  /** Every pairing of the second has one of the first at or before its task: the least task of the first is no greater. */
  ghost predicate Below(a: seq<Pairing>, b: seq<Pairing>) {
    forall q :: q in b ==> exists p :: p in a && TaskLeq(p, q)
  }

  /** The tasks of the matched changes ascend along the diff. */
  ghost predicate TasksAscend(pairings: seq<Pairing>, changes: seq<NodeChange>) {
    forall i, j :: 0 <= i < j < |changes| && IsMatched(pairings, changes[i]) && IsMatched(pairings, changes[j])
      ==> Below(Records(pairings, changes[i].key), Records(pairings, changes[j].key))
  }

  ghost predicate MatchLeq(x: Match, y: Match) {
    x.records != [] && y.records != [] && TaskLeq(x.records[0], y.records[0])
  }

  ghost predicate MatchesAscend(s: seq<Match>) {
    forall i, j :: 0 <= i < j < |s| ==> MatchLeq(s[i], s[j])
  }

  lemma TaskOrdering()
    ensures Ordering(TaskLeq)
  {
    LeqOrdering();
    forall x, y, z | TaskLeq(x, y) && TaskLeq(y, z)
      ensures TaskLeq(x, z)
    {
      assert Leq(x.task, y.task) && Leq(y.task, z.task);
    }
    forall x: Pairing, y: Pairing
      ensures TaskLeq(x, y) || TaskLeq(y, x)
    {
      assert Leq(x.task, y.task) || Leq(y.task, x.task);
    }
  }

  lemma SortedFirst(rs: seq<Pairing>)
    requires rs != []
    ensures var s := SortBy(TaskLeq, rs); s != [] && s[0] in rs && forall p :: p in rs ==> TaskLeq(s[0], p)
  {
    TaskOrdering();
    SortBySorted(TaskLeq, rs);
    var s := SortBy(TaskLeq, rs);
    assert |s| == |multiset(s)| == |multiset(rs)| == |rs|;
    assert s[0] in multiset(rs);
    forall p | p in rs
      ensures TaskLeq(s[0], p)
    {
      assert p in multiset(s);
      var i :| 0 <= i < |s| && s[i] == p;
    }
  }

  lemma FirstBelow(a: seq<Pairing>, b: seq<Pairing>)
    requires a != [] && b != []
    ensures SortBy(TaskLeq, a) != [] && SortBy(TaskLeq, b) != []
    ensures TaskLeq(SortBy(TaskLeq, a)[0], SortBy(TaskLeq, b)[0]) <==> Below(a, b)
  {
    hide SortBy, TaskLeq;
    SortedFirst(a);
    SortedFirst(b);
    TaskOrdering();
  }

  lemma MatchOfExactly(pairings: seq<Pairing>, c: NodeChange, m: Match)
    ensures m in MatchOf(pairings)(c) <==> IsMatched(pairings, c) && m == Match(c, SortBy(TaskLeq, Records(pairings, c.key)))
    ensures |MatchOf(pairings)(c)| <= 1
  {
  }

  /** One more change and the match it makes. */
  lemma AscendNext(pairings: seq<Pairing>, changes: seq<NodeChange>, k: nat)
    requires k < |changes|
    requires MatchesAscend(FlatMap(MatchOf(pairings), changes[..k])) <==> TasksAscend(pairings, changes[..k])
    ensures MatchesAscend(FlatMap(MatchOf(pairings), changes[..k + 1])) <==> TasksAscend(pairings, changes[..k + 1])
  {
    hide MatchOf, Records, SortBy, Below, FlatMap;
    var before, c := FlatMap(MatchOf(pairings), changes[..k]), changes[k];
    FlatMapNext(MatchOf(pairings), changes, k);
    var m := Match(c, SortBy(TaskLeq, Records(pairings, c.key)));
    MatchOfExactly(pairings, c, m);
    if IsMatched(pairings, c) {
      assert MatchOf(pairings)(c) == [m];
      EarlierBelow(pairings, changes, k, before, m);
      OneMoreMatch(before, m);
      OneMoreChange(pairings, changes, k);
    } else {
      OneMoreChange(pairings, changes, k);
      NoMatch(pairings, c);
      assert before + [] == before;
    }
  }

  lemma OneMoreMatch(before: seq<Match>, m: Match)
    ensures MatchesAscend(before + [m]) <==> MatchesAscend(before) && forall x :: x in before ==> MatchLeq(x, m)
  {
    hide MatchLeq;
    var s := before + [m];
    if MatchesAscend(s) {
      forall i, j | 0 <= i < j < |before|
        ensures MatchLeq(before[i], before[j])
      {
        assert MatchLeq(s[i], s[j]);
      }
      forall x | x in before
        ensures MatchLeq(x, m)
      {
        var i :| 0 <= i < |before| && before[i] == x;
        assert MatchLeq(s[i], s[|before|]);
      }
    }
  }

  lemma OneMoreChange(pairings: seq<Pairing>, changes: seq<NodeChange>, k: nat)
    requires k < |changes|
    ensures TasksAscend(pairings, changes[..k + 1]) <==>
            TasksAscend(pairings, changes[..k]) &&
            (IsMatched(pairings, changes[k]) ==>
               forall i :: 0 <= i < k && IsMatched(pairings, changes[i]) ==> Below(Records(pairings, changes[i].key), Records(pairings, changes[k].key)))
  {
    hide IsMatched, Records, Below;
    var s, t := changes[..k + 1], changes[..k];
    assert forall i :: 0 <= i < k ==> s[i] == t[i] == changes[i];
    assert s[k] == changes[k];
  }

  lemma NoMatch(pairings: seq<Pairing>, c: NodeChange)
    requires !IsMatched(pairings, c)
    ensures MatchOf(pairings)(c) == []
  {
  }

  lemma EarlierBelow(pairings: seq<Pairing>, changes: seq<NodeChange>, k: nat, before: seq<Match>, m: Match)
    requires k < |changes| && before == FlatMap(MatchOf(pairings), changes[..k]) && IsMatched(pairings, changes[k])
    requires m == Match(changes[k], SortBy(TaskLeq, Records(pairings, changes[k].key)))
    ensures (forall x :: x in before ==> MatchLeq(x, m)) <==>
            (forall i :: 0 <= i < k && IsMatched(pairings, changes[i]) ==> Below(Records(pairings, changes[i].key), Records(pairings, changes[k].key)))
  {
    hide MatchOf, Records, SortBy, Below, FlatMap, TaskLeq;
    forall i | 0 <= i < k && IsMatched(pairings, changes[i])
      ensures var x := Match(changes[i], SortBy(TaskLeq, Records(pairings, changes[i].key)));
              x in before && (MatchLeq(x, m) <==> Below(Records(pairings, changes[i].key), Records(pairings, changes[k].key)))
    {
      var x := Match(changes[i], SortBy(TaskLeq, Records(pairings, changes[i].key)));
      MatchOfExactly(pairings, changes[i], x);
      FlatMapMember(MatchOf(pairings), changes[..k], x);
      assert changes[..k][i] == changes[i];
      FirstBelow(Records(pairings, changes[i].key), Records(pairings, changes[k].key));
    }
    forall x | x in before
      ensures exists i :: 0 <= i < k && IsMatched(pairings, changes[i]) && x == Match(changes[i], SortBy(TaskLeq, Records(pairings, changes[i].key)))
    {
      FlatMapMember(MatchOf(pairings), changes[..k], x);
      var d :| d in changes[..k] && x in MatchOf(pairings)(d);
      MatchOfExactly(pairings, d, x);
      var i :| 0 <= i < k && changes[..k][i] == d;
    }
  }

  /** The matches are ordered by task exactly when the tasks of the matched changes ascend along the diff. */
  lemma MatchesAscendExactly(changes: seq<NodeChange>, pairings: seq<Pairing>, r: Correlated)
    requires IsCorrelation(changes, pairings, r)
    ensures MatchesAscend(r.matches) <==> TasksAscend(pairings, changes)
  {
    hide MatchOf, IsMatched, MatchLeq, IsOrphanList, UnmatchedOf, FlatMap;
    var k := 0;
    NoneAscend(pairings, changes);
    while k < |changes|
      invariant k <= |changes|
      invariant MatchesAscend(FlatMap(MatchOf(pairings), changes[..k])) <==> TasksAscend(pairings, changes[..k])
    {
      AscendNext(pairings, changes, k);
      k := k + 1;
    }
    assert changes[..|changes|] == changes;
  }

  lemma NoneAscend(pairings: seq<Pairing>, changes: seq<NodeChange>)
    ensures MatchesAscend(FlatMap(MatchOf(pairings), changes[..0])) && TasksAscend(pairings, changes[..0])
  {
  }

  /** Not by task: two changed nodes whose tasks stand in the other order. */
  lemma MatchesByDiff(a: NodeChange, b: NodeChange, p: Pairing, q: Pairing, r: Correlated)
    requires !a.structural && a.kind != LeafRemoved && !b.structural && b.kind != LeafRemoved && a.key != b.key
    requires p.node == a.key && q.node == b.key && Less(q.task, p.task)
    requires IsCorrelation([a, b], [p, q], r)
    ensures r.matches == [Match(a, [p]), Match(b, [q])]
  {
    hide Records, FlatMap, SortBy, IsOrphanList, UnmatchedOf;
    var pairings := [p, q];
    RecordsOfTwo(p, q, a.key);
    RecordsOfTwo(p, q, b.key);
    FlatTwo(MatchOf(pairings), a, b);
    assert Records(pairings, a.key) == [p] && Records(pairings, b.key) == [q];
    SortOne(p);
    SortOne(q);
  }

  lemma FlatTwo<T, U>(f: T -> seq<U>, x: T, y: T)
    ensures FlatMap(f, [x]) == f(x) && FlatMap(f, [x, y]) == f(x) + f(y)
  {
    FlatMapNext(f, [x], 0);
    FlatMapNext(f, [x, y], 0);
    FlatMapNext(f, [x, y], 1);
    assert [x][..0] == [] && [x][..1] == [x] && [x, y][..0] == [] && [x, y][..1] == [x] && [x, y][..2] == [x, y];
  }

  /** Two removed nodes paired with one task: the orphan that is left is that of the later change. */
  lemma SharedTaskOrphan(a: NodeChange, b: NodeChange, p: Pairing, q: Pairing, r: Correlated)
    requires !a.structural && a.kind == LeafRemoved && !b.structural && b.kind == LeafRemoved && a.key != b.key
    requires p.node == a.key && q.node == b.key && q.task == p.task
    requires IsCorrelation([a, b], [p, q], r) || IsCorrelation([a, b], [q, p], r)
    ensures r.orphaned == [Orphaned(q, b.nodeType)]
  {
    hide FlatMap, OrphansOf, TasksMatched, IsOrphanList, MatchOf, UnmatchedOf;
    if IsCorrelation([a, b], [p, q], r) {
      TwoOrphans(a, b, p, q, [p, q]);
    } else {
      TwoOrphans(a, b, p, q, [q, p]);
    }
    OnlyLast(Orphaned(p, a.nodeType), Orphaned(q, b.nodeType), r.orphaned);
  }

  lemma OnlyLast(x: Orphaned, y: Orphaned, orphaned: seq<Orphaned>)
    requires x.record.task == y.record.task && IsOrphanList([x, y], [], orphaned)
    ensures orphaned == [y]
  {
    LastForNext([x], y, y.record.task);
    assert [x] + [y] == [x, y];
    assert y in orphaned;
    forall o | o in orphaned
      ensures o == y
    {
      LastForNext([x], y, o.record.task);
      LastForNext([], x, o.record.task);
      assert [] + [x] == [x];
    }
    if |orphaned| > 1 {
      assert orphaned[0] in orphaned && orphaned[1] in orphaned;
      LessIrreflexive(y.record.task);
    }
  }

  lemma TwoOrphans(a: NodeChange, b: NodeChange, p: Pairing, q: Pairing, pairings: seq<Pairing>)
    requires !a.structural && a.kind == LeafRemoved && !b.structural && b.kind == LeafRemoved && a.key != b.key
    requires p.node == a.key && q.node == b.key && (pairings == [p, q] || pairings == [q, p])
    ensures FlatMap(OrphansOf(pairings), [a, b]) == [Orphaned(p, a.nodeType), Orphaned(q, b.nodeType)]
    ensures FlatMap(TasksMatched(pairings), [a, b]) == []
  {
    hide Records, FlatMap;
    RecordsOfTwo(p, q, a.key);
    RecordsOfTwo(p, q, b.key);
    RecordsOfTwo(q, p, a.key);
    RecordsOfTwo(q, p, b.key);
    FlatTwo(OrphansOf(pairings), a, b);
    FlatTwo(TasksMatched(pairings), a, b);
    FlatTwo(AsOrphan(a.nodeType), p, p);
    FlatTwo(AsOrphan(b.nodeType), q, q);
    assert Records(pairings, a.key) == [p] && Records(pairings, b.key) == [q];
  }

  lemma RecordsOfTwo(p: Pairing, q: Pairing, node: string)
    ensures Records([p, q], node) == (if p.node == node then [p] else []) + (if q.node == node then [q] else [])
  {
    FlatTwo(WithNode(node), p, q);
  }

  lemma SortOne(p: Pairing)
    ensures SortBy(TaskLeq, [p]) == [p]
  {
    assert multiset(SortBy(TaskLeq, [p])) == multiset([p]);
    assert |SortBy(TaskLeq, [p])| == |multiset([p])| == 1;
    assert SortBy(TaskLeq, [p])[0] in multiset([p]);
  }
}
