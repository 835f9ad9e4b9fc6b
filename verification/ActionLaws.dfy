/**
 What a plan does about every change, in terms of the diff, the journal's pairings
 and the spec: which task each change gets, loses or keeps, and what refuses the run.
 */
module ActionLaws {
  import opened Results
  import opened Order
  import opened Bags
  import opened PlanTypes
  import opened Merkle
  import opened SpecGraph
  import opened SpecLaws
  import opened Resolver
  import opened Matcher
  import opened Classifier
  import P = PlanningLaws

  // ---- the spec, as a change finds it ----

  /** The test section of this id in the change's module. */
  function TheSection(graph: Specs, c: NodeChange): Option<TestSection> {
    if c.mod in graph.byName then FindTestSection(graph.byName[c.mod].spec.testSections, c.key) else None
  }

  /** A test section that describes one component. */
  predicate FoldsBack(graph: Specs, c: NodeChange) {
    c.nodeType == "test_section" && TheSection(graph, c).Some? && |TheSection(graph, c).value.describes| == 1
  }

  /** A type that owes tasks; a test section the spec holds owes one when it describes two components or more. */
  predicate OwesTask(graph: Specs, c: NodeChange) {
    || c.nodeType == "module"
    || (c.nodeType in graph.planRelevant
        && (c.nodeType == "test_section" && TheSection(graph, c).Some? ==> |TheSection(graph, c).value.describes| >= 2))
  }

  /** The node's name in the spec, or its id. */
  function TheName(graph: Specs, c: NodeChange): string {
    if c.mod !in graph.byName then
      c.key
    else
      var spec := graph.byName[c.mod].spec;
      match c.nodeType
      case "component" =>
        (var x := FindComponent(spec.components, c.key); if x.Some? then x.value.name else c.key)
      case "data_flow" =>
        (var x := FindDataFlow(spec.dataFlows, c.key); if x.Some? then x.value.name else c.key)
      case "test_section" =>
        (var x := FindTestSection(spec.testSections, c.key); if x.Some? then x.value.name else c.key)
      case _ => c.key
  }

  /** A change that the plan looks at and whose node is in the spec. */
  ghost predicate Survives(changes: seq<NodeChange>, d: NodeChange) {
    d in changes && !d.structural && d.kind != LeafRemoved
  }

  /** A changed data flow x has the component among its uses. */
  ghost predicate ChangedFlow(graph: Specs, changes: seq<NodeChange>, comp: string, x: string) {
    exists d :: Survives(changes, d) && d.key == x && d.nodeType == "data_flow" && d.mod in graph.byName
      && var f := FindDataFlow(graph.byName[d.mod].spec.dataFlows, x); f.Some? && comp in f.value.uses
  }

  /** What the action for a change waits for: a component's dependencies, what a test section describes, and, for a
      create of a component, the changed data flows that name it. */
  ghost predicate WaitsFor(graph: Specs, changes: seq<NodeChange>, c: NodeChange, creates: bool, x: string) {
    || (c.nodeType == "component" && c.mod in graph.byName && Needs(graph, graph.byName[c.mod], c.key, x))
    || (c.nodeType == "component" && creates && c.newHash != "" && ChangedFlow(graph, changes, c.key, x))
    || (c.nodeType == "test_section" && TheSection(graph, c).Some? && x in TheSection(graph, c).value.describes)
  }

  ghost predicate DepsAre(graph: Specs, changes: seq<NodeChange>, c: NodeChange, a: Action) {
    Ascending(a.deps) && forall x :: x in a.deps <==> WaitsFor(graph, changes, c, a.kind == ActionCreate, x)
  }

  // ---- what each change comes to ----

  ghost predicate Paired(pairings: seq<Pairing>, c: NodeChange, rec: Pairing) {
    rec in pairings && rec.node == c.key
  }

  /** The pairing resurfaced from a run that already recorded this hash. */
  predicate Tracked(rec: Pairing, c: NodeChange) {
    rec.after == c.newHash && rec.after != ""
  }

  /** An action for a node of the spec. */
  ghost predicate ForNode(graph: Specs, changes: seq<NodeChange>, c: NodeChange, a: Action) {
    && a.mod == c.mod && a.name == TheName(graph, c) && a.nodeType == c.nodeType && a.node == c.key && a.hash == c.newHash
    && DepsAre(graph, changes, c, a)
  }

  /** An open task is retargeted. */
  ghost predicate Retargets(graph: Specs, changes: seq<NodeChange>, c: NodeChange, rec: Pairing, a: Action) {
    && c.kind != LeafRemoved && !FoldsBack(graph, c) && !Tracked(rec, c) && rec.status == "open"
    && ForNode(graph, changes, c, a) && a.kind == ActionRetarget && a.task == rec.task
    && a.reason == "Spec node modified (retarget): " + a.mod + "/" + a.name
  }

  /** A finished task is followed by a new one. */
  ghost predicate CreatesAgain(graph: Specs, changes: seq<NodeChange>, c: NodeChange, rec: Pairing, a: Action) {
    && c.kind != LeafRemoved && !FoldsBack(graph, c) && !Tracked(rec, c) && rec.status != "open" && rec.status != "in_progress"
    && ForNode(graph, changes, c, a) && a.kind == ActionCreate && a.task == ""
    && a.reason == "Spec node modified (new): " + a.mod + "/" + a.name
  }

  /** The open task of a folded-back section is closed. */
  ghost predicate ClosesFolded(graph: Specs, c: NodeChange, rec: Pairing, a: Action) {
    && c.kind != LeafRemoved && FoldsBack(graph, c) && rec.status == "open"
    && a == Action(ActionObsolete, rec.task, c.mod, TheName(graph, c), c.nodeType, c.key, "", [],
                   "Spec node modified: " + c.mod + "/" + TheName(graph, c))
  }

  /** The open task of a removed node is closed. */
  ghost predicate ClosesRemoved(c: NodeChange, rec: Pairing, a: Action) {
    && c.kind == LeafRemoved && rec.status == "open"
    && a == Action(ActionObsolete, rec.task, rec.mod, rec.name, c.nodeType, c.key, "", [], "Spec node removed: " + rec.mod + "/" + rec.name)
  }

  /** A removed node whose task is finished is cleaned up. */
  ghost predicate CleansUp(c: NodeChange, rec: Pairing, a: Action) {
    && c.kind == LeafRemoved && rec.status != "open" && rec.status != "in_progress"
    && a == Action(ActionCreate, "", rec.mod, rec.name, c.nodeType, c.key, "", [], "Code cleanup: " + rec.mod + "/" + rec.name)
  }

  /** A node without a task gets its first one. */
  ghost predicate CreatesFirst(graph: Specs, changes: seq<NodeChange>, pairings: seq<Pairing>, c: NodeChange, a: Action) {
    && c.kind != LeafRemoved && OwesTask(graph, c) && (forall rec :: !Paired(pairings, c, rec))
    && ForNode(graph, changes, c, a) && a.kind == ActionCreate && a.task == ""
    && a.reason == (if c.kind == LeafAdded then "New spec node: " else "Spec node modified (new): ") + a.mod + "/" + a.name
  }

  ghost predicate OwedFor(graph: Specs, changes: seq<NodeChange>, c: NodeChange, rec: Pairing, a: Action) {
    || Retargets(graph, changes, c, rec, a) || CreatesAgain(graph, changes, c, rec, a) || ClosesFolded(graph, c, rec, a)
    || ClosesRemoved(c, rec, a) || CleansUp(c, rec, a)
  }

  ghost predicate Owed(graph: Specs, changes: seq<NodeChange>, pairings: seq<Pairing>, c: NodeChange, a: Action) {
    && c in changes && !c.structural
    && (CreatesFirst(graph, changes, pairings, c, a) || exists rec :: Paired(pairings, c, rec) && OwedFor(graph, changes, c, rec, a))
  }

  ghost predicate ClaimedFor(graph: Specs, c: NodeChange, rec: Pairing, t: string) {
    && rec.status == "in_progress" && rec.task == t
    && if c.kind == LeafRemoved then t != "" else FoldsBack(graph, c) || !Tracked(rec, c)
  }

  /** A task in progress whose node was changed, folded back or removed. */
  ghost predicate Claimed(graph: Specs, changes: seq<NodeChange>, pairings: seq<Pairing>, c: NodeChange, t: string) {
    c in changes && !c.structural && exists rec :: Paired(pairings, c, rec) && ClaimedFor(graph, c, rec, t)
  }

  /** Creates, then closes, then retargets; within each by module, name, task and node. */
  predicate ListedBefore(x: Action, y: Action) {
    if x.kind != y.kind then x.kind == ActionCreate || (x.kind == ActionObsolete && y.kind == ActionRetarget)
    else if x.mod != y.mod then Less(x.mod, y.mod)
    else if x.name != y.name then Less(x.name, y.name)
    else if x.task != y.task then Less(x.task, y.task)
    else Leq(x.node, y.node)
  }

  /** The whole answer of a classification. */
  ghost predicate PlanSays(graph: Specs, changes: seq<NodeChange>, pairings: seq<Pairing>, out: Result<seq<Action>, seq<string>>) {
    match out
    case Err(tasks) =>
      && tasks != [] && SortedBy(Leq, tasks)
      && forall t :: t in tasks <==> exists c :: Claimed(graph, changes, pairings, c, t)
    case Ok(actions) =>
      && (forall c, t :: !Claimed(graph, changes, pairings, c, t))
      && (forall a :: a in actions <==> exists c :: Owed(graph, changes, pairings, c, a))
      && (forall i, j :: 0 <= i < j < |actions| ==> actions[i].node != actions[j].node && ListedBefore(actions[i], actions[j]))
  }

  // ---- where actions and claims come from ----

  lemma RecordsExactly(pairings: seq<Pairing>, c: NodeChange, rec: Pairing)
    ensures rec in Records(pairings, c.key) <==> Paired(pairings, c, rec)
  {
    FlatMapMember(WithNode(c.key), pairings, rec);
  }

  /** The matches are the surviving changes that are paired, each with its pairings. */
  lemma MatchExactly(changes: seq<NodeChange>, pairings: seq<Pairing>, c: NodeChange, rec: Pairing)
    ensures (exists m :: m in FlatMap(MatchOf(pairings), changes) && m.change == c && rec in m.records) <==> Survives(changes, c) && Paired(pairings, c, rec)
  {
    hide Records;
    var matches := FlatMap(MatchOf(pairings), changes);
    RecordsExactly(pairings, c, rec);
    if m :| m in matches && m.change == c && rec in m.records {
      FlatMapMember(MatchOf(pairings), changes, m);
      var d :| d in changes && m in MatchOf(pairings)(d);
      MatchOfExactly(pairings, d, m);
      assert rec in multiset(m.records);
    }
    if Survives(changes, c) && Paired(pairings, c, rec) {
      var m := Match(c, SortBy(TaskLeq, Records(pairings, c.key)));
      MatchOfExactly(pairings, c, m);
      FlatMapMember(MatchOf(pairings), changes, m);
      assert rec in multiset(Records(pairings, c.key));
      assert rec in multiset(m.records);
    }
  }

  lemma UnmatchedExactly(changes: seq<NodeChange>, pairings: seq<Pairing>, c: NodeChange)
    ensures c in FlatMap(UnmatchedOf(pairings), changes) <==> Survives(changes, c) && forall rec :: !Paired(pairings, c, rec)
  {
    FlatMapMember(UnmatchedOf(pairings), changes, c);
    forall rec
      ensures rec in Records(pairings, c.key) <==> Paired(pairings, c, rec)
    {
      RecordsExactly(pairings, c, rec);
    }
    if Records(pairings, c.key) != [] {
      assert Records(pairings, c.key)[0] in Records(pairings, c.key);
    }
  }

  ghost predicate RemovedPair(changes: seq<NodeChange>, pairings: seq<Pairing>, c: NodeChange, o: Orphaned) {
    c in changes && !c.structural && c.kind == LeafRemoved && Paired(pairings, c, o.record) && o.nodeType == c.nodeType
  }

  lemma CandidateExactly(changes: seq<NodeChange>, pairings: seq<Pairing>, o: Orphaned)
    ensures o in FlatMap(OrphansOf(pairings), changes) <==> exists c :: RemovedPair(changes, pairings, c, o)
  {
    FlatMapMember(OrphansOf(pairings), changes, o);
    forall c | c in changes
      ensures o in OrphansOf(pairings)(c) <==> RemovedPair(changes, pairings, c, o)
    {
      FlatMapMember(AsOrphan(c.nodeType), Records(pairings, c.key), o);
      RecordsExactly(pairings, c, o.record);
    }
  }

  /** With one pairing per node and task, every pairing of a removed node is an orphan. */
  lemma OrphanExactly(changes: seq<NodeChange>, pairings: seq<Pairing>, r: Correlated, o: Orphaned)
    requires P.DistinctKeys(changes) && P.OnePerNode(pairings) && IsCorrelation(changes, pairings, r)
    ensures o in r.orphaned <==> exists c :: RemovedPair(changes, pairings, c, o)
  {
    hide OrphansOf, TasksMatched, Records, IsOrphanList, MatchOf, UnmatchedOf;
    P.OrphanListMembers(changes, pairings, r.orphaned, o);
    CandidateExactly(changes, pairings, o);
    if c :| RemovedPair(changes, pairings, c, o) {
      TaskNotMatched(changes, pairings, c, o);
    }
  }

  lemma TaskNotMatched(changes: seq<NodeChange>, pairings: seq<Pairing>, c: NodeChange, o: Orphaned)
    requires P.DistinctKeys(changes) && P.OnePerNode(pairings) && RemovedPair(changes, pairings, c, o)
    ensures o.record.task !in FlatMap(TasksMatched(pairings), changes)
  {
    hide FlatMap, Records, P.OnePerNode;
    var t := o.record.task;
    FlatMapMember(TasksMatched(pairings), changes, t);
    forall d | d in changes
      ensures t !in TasksMatched(pairings)(d)
    {
      FlatMapMember(PairedTask(), Records(pairings, d.key), t);
      forall rec | rec in Records(pairings, d.key) && !d.structural && d.kind != LeafRemoved
        ensures rec.task != t
      {
        RecordsExactly(pairings, d, rec);
        if rec.task == t {
          SameTask(pairings, rec, o.record);
        }
      }
    }
  }

  lemma SameTask(pairings: seq<Pairing>, x: Pairing, y: Pairing)
    requires P.OnePerNode(pairings) && x in pairings && y in pairings && (x.task == y.task || x.node == y.node)
    ensures x == y
  {
  }

  /** Where an action comes from before the data flows are added. */
  ghost predicate RawFor(graph: Specs, changes: seq<NodeChange>, pairings: seq<Pairing>, c: NodeChange, a: Action) {
    && c in changes && !c.structural
    && (|| (c.kind != LeafRemoved && (forall rec :: !Paired(pairings, c, rec)) && a in UnmatchedActions(graph)(c))
        || (exists rec :: Paired(pairings, c, rec) &&
              if c.kind == LeafRemoved then a in OrphanActions()(Orphaned(rec, c.nodeType)) else a in RecordActions(c, graph)(rec)))
  }

  lemma RawFromMatch(changes: seq<NodeChange>, pairings: seq<Pairing>, r: Correlated, graph: Specs, a: Action)
    requires IsCorrelation(changes, pairings, r)
    ensures a in FlatMap(MatchActions(graph), r.matches) <==>
            exists c, rec :: Survives(changes, c) && Paired(pairings, c, rec) && a in RecordActions(c, graph)(rec)
  {
    hide RecordActions, MatchOf, UnmatchedOf, IsOrphanList, Paired, Survives;
    FlatMapMember(MatchActions(graph), r.matches, a);
    if a in FlatMap(MatchActions(graph), r.matches) {
      var m :| m in r.matches && a in MatchActions(graph)(m);
      FlatMapMember(RecordActions(m.change, graph), m.records, a);
      var rec :| rec in m.records && a in RecordActions(m.change, graph)(rec);
      MatchExactly(changes, pairings, m.change, rec);
    }
    if c, rec :| Survives(changes, c) && Paired(pairings, c, rec) && a in RecordActions(c, graph)(rec) {
      MatchExactly(changes, pairings, c, rec);
      var m :| m in r.matches && m.change == c && rec in m.records;
      FlatMapMember(RecordActions(m.change, graph), m.records, a);
      assert a in MatchActions(graph)(m);
    }
  }

  lemma RawFromOrphan(changes: seq<NodeChange>, pairings: seq<Pairing>, r: Correlated, graph: Specs, a: Action)
    requires P.DistinctKeys(changes) && P.OnePerNode(pairings) && IsCorrelation(changes, pairings, r)
    ensures a in FlatMap(OrphanActions(), r.orphaned) <==>
            exists c, rec :: c in changes && !c.structural && c.kind == LeafRemoved && Paired(pairings, c, rec) && a in OrphanActions()(Orphaned(rec, c.nodeType))
  {
    hide OrphanActions, MatchOf, UnmatchedOf, IsOrphanList, Paired, P.DistinctKeys, P.OnePerNode, IsCorrelation;
    FlatMapMember(OrphanActions(), r.orphaned, a);
    if a in FlatMap(OrphanActions(), r.orphaned) {
      var o :| o in r.orphaned && a in OrphanActions()(o);
      OrphanExactly(changes, pairings, r, o);
      var c :| RemovedPair(changes, pairings, c, o);
      assert o == Orphaned(o.record, c.nodeType);
    }
    if c, rec :| c in changes && !c.structural && c.kind == LeafRemoved && Paired(pairings, c, rec) && a in OrphanActions()(Orphaned(rec, c.nodeType)) {
      OrphanExactly(changes, pairings, r, Orphaned(rec, c.nodeType));
      assert RemovedPair(changes, pairings, c, Orphaned(rec, c.nodeType));
    }
  }

  lemma RawFromNew(changes: seq<NodeChange>, pairings: seq<Pairing>, r: Correlated, graph: Specs, a: Action)
    requires IsCorrelation(changes, pairings, r)
    ensures a in FlatMap(UnmatchedActions(graph), r.unmatched) <==>
            exists c :: Survives(changes, c) && (forall rec :: !Paired(pairings, c, rec)) && a in UnmatchedActions(graph)(c)
  {
    hide UnmatchedActions, MatchOf, UnmatchedOf, IsOrphanList, Paired, Survives;
    FlatMapMember(UnmatchedActions(graph), r.unmatched, a);
    forall c
      ensures c in r.unmatched <==> Survives(changes, c) && forall rec :: !Paired(pairings, c, rec)
    {
      UnmatchedExactly(changes, pairings, c);
    }
  }

  lemma RawExactly(changes: seq<NodeChange>, pairings: seq<Pairing>, r: Correlated, graph: Specs, a: Action)
    requires P.DistinctKeys(changes) && P.OnePerNode(pairings) && IsCorrelation(changes, pairings, r)
    ensures a in RawActions(r, graph) <==> exists c :: RawFor(graph, changes, pairings, c, a)
  {
    hide IsCorrelation, P.DistinctKeys, P.OnePerNode, Paired, RecordActions, OrphanActions, UnmatchedActions;
    RawFromMatch(changes, pairings, r, graph, a);
    RawFromOrphan(changes, pairings, r, graph, a);
    RawFromNew(changes, pairings, r, graph, a);
    if a in RawActions(r, graph) {
      if a in FlatMap(MatchActions(graph), r.matches) {
        var c, rec :| Survives(changes, c) && Paired(pairings, c, rec) && a in RecordActions(c, graph)(rec);
        assert RawFor(graph, changes, pairings, c, a);
      } else if a in FlatMap(OrphanActions(), r.orphaned) {
        var c, rec :| c in changes && !c.structural && c.kind == LeafRemoved && Paired(pairings, c, rec) && a in OrphanActions()(Orphaned(rec, c.nodeType));
        assert RawFor(graph, changes, pairings, c, a);
      } else {
        var c :| Survives(changes, c) && (forall rec :: !Paired(pairings, c, rec)) && a in UnmatchedActions(graph)(c);
        assert RawFor(graph, changes, pairings, c, a);
      }
    }
  }

  // ---- dependencies ----

  lemma SurvivorsExactly(changes: seq<NodeChange>, pairings: seq<Pairing>, r: Correlated, d: NodeChange)
    requires IsCorrelation(changes, pairings, r)
    ensures d in ChangesOf(r.matches, r.unmatched) <==> Survives(changes, d)
  {
    hide MatchOf, UnmatchedOf, IsOrphanList, Paired, Survives;
    P.ChangesOfMember(r, d);
    UnmatchedExactly(changes, pairings, d);
    if m :| m in r.matches && m.change == d {
      MatchNotEmpty(changes, pairings, m);
      MatchExactly(changes, pairings, d, m.records[0]);
    }
    if Survives(changes, d) && d !in r.unmatched {
      var rec :| Paired(pairings, d, rec);
      MatchExactly(changes, pairings, d, rec);
    }
  }

  lemma MatchNotEmpty(changes: seq<NodeChange>, pairings: seq<Pairing>, m: Match)
    requires m in FlatMap(MatchOf(pairings), changes)
    ensures m.records != []
  {
    hide Records, FlatMap, SortBy, MatchOf;
    FlatMapMember(MatchOf(pairings), changes, m);
    var c :| c in changes && m in MatchOf(pairings)(c);
    MatchOfExactly(pairings, c, m);
    assert |m.records| == |multiset(m.records)| == |multiset(Records(pairings, c.key))| == |Records(pairings, c.key)|;
  }

  lemma FlowsExactly(changes: seq<NodeChange>, pairings: seq<Pairing>, r: Correlated, graph: Specs, comp: string, x: string)
    requires IsCorrelation(changes, pairings, r)
    ensures x in FlowsNaming(ChangesOf(r.matches, r.unmatched), graph, comp) <==> ChangedFlow(graph, changes, comp, x)
  {
    hide IsCorrelation, ChangesOf, Survives;
    var all := ChangesOf(r.matches, r.unmatched);
    forall d
      ensures d in all <==> Survives(changes, d)
    {
      SurvivorsExactly(changes, pairings, r, d);
    }
    if d :| d in all && FlowNames(graph, d, comp) && d.key == x {
      assert Survives(changes, d);
    }
  }

  lemma ChangeDepsExactly(graph: Specs, c: NodeChange)
    ensures Ascending(ChangeDeps(c, graph))
    ensures forall x :: x in ChangeDeps(c, graph) <==>
              (c.nodeType == "component" && c.mod in graph.byName && Needs(graph, graph.byName[c.mod], c.key, x))
              || (c.nodeType == "test_section" && TheSection(graph, c).Some? && x in TheSection(graph, c).value.describes)
  {
    hide Needs;
    forall x
      ensures x in DepSet(graph, c.mod, c.key) <==> c.mod in graph.byName && Needs(graph, graph.byName[c.mod], c.key, x)
    {
      if c.mod in graph.byName {
        DepsSay(graph, c.mod, c.key, x);
      }
    }
    if c.nodeType != KIND_COMPONENT && c.nodeType != KIND_TEST_SECTION {
      assert ChangeDeps(c, graph) == [];
    }
  }

  /** The data flows added, an action waits for exactly what its change says. */
  lemma DepsExactly(changes: seq<NodeChange>, pairings: seq<Pairing>, r: Correlated, graph: Specs, c: NodeChange, raw: Action)
    requires IsCorrelation(changes, pairings, r)
    requires raw.deps == ChangeDeps(c, graph) && raw.node == c.key && raw.nodeType == c.nodeType && raw.hash == c.newHash
    ensures var a := WithFlows(raw, FlowsNaming(ChangesOf(r.matches, r.unmatched), graph, raw.node));
            a == raw.(deps := a.deps) && DepsAre(graph, changes, c, a)
  {
    hide IsCorrelation, Needs, FlowsNaming, ChangedFlow, ChangesOf, ChangeDeps;
    var flows := FlowsNaming(ChangesOf(r.matches, r.unmatched), graph, raw.node);
    var a := WithFlows(raw, flows);
    ChangeDepsExactly(graph, c);
    forall x
      ensures x in a.deps <==> WaitsFor(graph, changes, c, a.kind == ActionCreate, x)
    {
      FlowsExactly(changes, pairings, r, graph, c.key, x);
    }
  }

  lemma DepsUnique(graph: Specs, changes: seq<NodeChange>, c: NodeChange, a: Action, b: Action)
    requires DepsAre(graph, changes, c, a) && DepsAre(graph, changes, c, b) && a.kind == b.kind
    ensures a.deps == b.deps
  {
    hide WaitsFor;
    AscendingUnique(a.deps, b.deps);
  }

  ghost function Final(r: Correlated, graph: Specs, raw: Action): Action {
    WithFlows(raw, FlowsNaming(ChangesOf(r.matches, r.unmatched), graph, raw.node))
  }

  lemma NameAgrees(graph: Specs, c: NodeChange)
    ensures NodeName(graph, c) == TheName(graph, c)
  {
  }

  /** A node's action with its dependencies is the one the change says. */
  lemma NodeActionExactly(changes: seq<NodeChange>, pairings: seq<Pairing>, r: Correlated, graph: Specs, c: NodeChange,
                          kind: ActionType, task: string, reason: string, a: Action)
    requires IsCorrelation(changes, pairings, r)
    ensures a == Final(r, graph, NodeAction(kind, task, c, NodeName(graph, c), ChangeDeps(c, graph), reason)) <==>
            ForNode(graph, changes, c, a) && a.kind == kind && a.task == task && a.reason == reason + a.mod + "/" + a.name
  {
    hide IsCorrelation, WithFlows, FlowsNaming, ChangesOf, ChangeDeps, NodeName, TheName, DepsAre;
    var raw := NodeAction(kind, task, c, NodeName(graph, c), ChangeDeps(c, graph), reason);
    NameAgrees(graph, c);
    DepsExactly(changes, pairings, r, graph, c, raw);
    if ForNode(graph, changes, c, a) && a.kind == kind && a.task == task && a.reason == reason + a.mod + "/" + a.name {
      DepsUnique(graph, changes, c, a, Final(r, graph, raw));
    }
  }

  /** Closes and cleanups wait for nothing. */
  lemma PlainFinal(r: Correlated, graph: Specs, raw: Action)
    requires raw.kind == ActionObsolete || raw.hash == ""
    ensures Final(r, graph, raw) == raw
  {
  }

  lemma RecordOwed(changes: seq<NodeChange>, pairings: seq<Pairing>, r: Correlated, graph: Specs, c: NodeChange, rec: Pairing, a: Action)
    requires IsCorrelation(changes, pairings, r) && c.kind != LeafRemoved
    ensures (exists raw :: raw in RecordActions(c, graph)(rec) && a == Final(r, graph, raw)) <==> OwedFor(graph, changes, c, rec, a)
  {
    hide IsCorrelation, Final, ForNode, NodeAction, ChangeDeps, NodeName, TheName;
    NameAgrees(graph, c);
    NodeActionExactly(changes, pairings, r, graph, c, ActionRetarget, rec.task, "Spec node modified (retarget): ", a);
    NodeActionExactly(changes, pairings, r, graph, c, ActionCreate, "", "Spec node modified (new): ", a);
    var close := CloseAction(c.mod, NodeName(graph, c), c.nodeType, c.key, rec.task, false);
    PlainFinal(r, graph, close);
    var all := RecordActions(c, graph)(rec);
    assert all == [] || all == [all[0]];
    assert (exists raw :: raw in all && a == Final(r, graph, raw)) <==> all != [] && a == Final(r, graph, all[0]);
  }

  lemma OrphanOwed(r: Correlated, graph: Specs, changes: seq<NodeChange>, c: NodeChange, rec: Pairing, a: Action)
    requires c.kind == LeafRemoved && rec.node == c.key
    ensures (exists raw :: raw in OrphanActions()(Orphaned(rec, c.nodeType)) && a == Final(r, graph, raw)) <==> OwedFor(graph, changes, c, rec, a)
  {
    hide Final, ForNode;
    var all := OrphanActions()(Orphaned(rec, c.nodeType));
    if all != [] {
      PlainFinal(r, graph, all[0]);
    }
    assert (exists raw :: raw in all && a == Final(r, graph, raw)) <==> all != [] && a == Final(r, graph, all[0]);
  }

  lemma NewOwed(changes: seq<NodeChange>, pairings: seq<Pairing>, r: Correlated, graph: Specs, c: NodeChange, a: Action)
    requires IsCorrelation(changes, pairings, r) && c.kind != LeafRemoved && forall rec :: !Paired(pairings, c, rec)
    ensures (exists raw :: raw in UnmatchedActions(graph)(c) && a == Final(r, graph, raw)) <==> CreatesFirst(graph, changes, pairings, c, a)
  {
    hide IsCorrelation, Final, ForNode, NodeAction, ChangeDeps, NodeName, TheName, Paired;
    NodeActionExactly(changes, pairings, r, graph, c, ActionCreate, "", if c.kind == LeafModified then "Spec node modified (new): " else "New spec node: ", a);
    var all := UnmatchedActions(graph)(c);
    assert (exists raw :: raw in all && a == Final(r, graph, raw)) <==> all != [] && a == Final(r, graph, all[0]);
  }

  lemma FinalExactly(changes: seq<NodeChange>, pairings: seq<Pairing>, r: Correlated, graph: Specs, c: NodeChange, a: Action)
    requires IsCorrelation(changes, pairings, r)
    ensures (exists raw :: RawFor(graph, changes, pairings, c, raw) && a == Final(r, graph, raw)) <==> Owed(graph, changes, pairings, c, a)
  {
    hide IsCorrelation, Final, RecordActions, OrphanActions, UnmatchedActions, CreatesFirst, OwedFor;
    if c in changes && !c.structural {
      forall rec | Paired(pairings, c, rec)
        ensures (exists raw :: (if c.kind == LeafRemoved then raw in OrphanActions()(Orphaned(rec, c.nodeType)) else raw in RecordActions(c, graph)(rec))
                               && a == Final(r, graph, raw)) <==> OwedFor(graph, changes, c, rec, a)
      {
        if c.kind == LeafRemoved {
          OrphanOwed(r, graph, changes, c, rec, a);
        } else {
          RecordOwed(changes, pairings, r, graph, c, rec, a);
        }
      }
      FirstOnly(graph, changes, pairings, c, a);
      if c.kind != LeafRemoved && forall rec :: !Paired(pairings, c, rec) {
        NewOwed(changes, pairings, r, graph, c, a);
      }
    }
  }

  lemma FirstOnly(graph: Specs, changes: seq<NodeChange>, pairings: seq<Pairing>, c: NodeChange, a: Action)
    ensures CreatesFirst(graph, changes, pairings, c, a) ==> c.kind != LeafRemoved && forall rec :: !Paired(pairings, c, rec)
  {
  }

  // ---- claims ----

  lemma MatchClaimsExactly(changes: seq<NodeChange>, pairings: seq<Pairing>, r: Correlated, graph: Specs, t: string)
    requires IsCorrelation(changes, pairings, r)
    ensures t in FlatMap(MatchClaims(graph), r.matches) <==>
            exists c, rec :: Survives(changes, c) && Paired(pairings, c, rec) && t in RecordClaims(c, graph)(rec)
  {
    hide RecordClaims, MatchOf, UnmatchedOf, IsOrphanList, Paired, Survives;
    FlatMapMember(MatchClaims(graph), r.matches, t);
    if t in FlatMap(MatchClaims(graph), r.matches) {
      var m :| m in r.matches && t in MatchClaims(graph)(m);
      FlatMapMember(RecordClaims(m.change, graph), m.records, t);
      var rec :| rec in m.records && t in RecordClaims(m.change, graph)(rec);
      MatchExactly(changes, pairings, m.change, rec);
    }
    if c, rec :| Survives(changes, c) && Paired(pairings, c, rec) && t in RecordClaims(c, graph)(rec) {
      MatchExactly(changes, pairings, c, rec);
      var m :| m in r.matches && m.change == c && rec in m.records;
      FlatMapMember(RecordClaims(m.change, graph), m.records, t);
      assert t in MatchClaims(graph)(m);
    }
  }

  lemma OrphanClaimsExactly(changes: seq<NodeChange>, pairings: seq<Pairing>, r: Correlated, graph: Specs, t: string)
    requires P.DistinctKeys(changes) && P.OnePerNode(pairings) && IsCorrelation(changes, pairings, r)
    ensures t in FlatMap(OrphanClaims(), r.orphaned) <==>
            exists c, rec :: c in changes && !c.structural && c.kind == LeafRemoved && Paired(pairings, c, rec) && t in OrphanClaims()(Orphaned(rec, c.nodeType))
  {
    hide OrphanClaims, MatchOf, UnmatchedOf, IsOrphanList, Paired, P.DistinctKeys, P.OnePerNode, IsCorrelation;
    FlatMapMember(OrphanClaims(), r.orphaned, t);
    if t in FlatMap(OrphanClaims(), r.orphaned) {
      var o :| o in r.orphaned && t in OrphanClaims()(o);
      OrphanExactly(changes, pairings, r, o);
      var c :| RemovedPair(changes, pairings, c, o);
      assert o == Orphaned(o.record, c.nodeType);
    }
    if c, rec :| c in changes && !c.structural && c.kind == LeafRemoved && Paired(pairings, c, rec) && t in OrphanClaims()(Orphaned(rec, c.nodeType)) {
      OrphanExactly(changes, pairings, r, Orphaned(rec, c.nodeType));
      assert RemovedPair(changes, pairings, c, Orphaned(rec, c.nodeType));
    }
  }

  lemma ClaimsExactly(changes: seq<NodeChange>, pairings: seq<Pairing>, r: Correlated, graph: Specs, t: string)
    requires P.DistinctKeys(changes) && P.OnePerNode(pairings) && IsCorrelation(changes, pairings, r)
    ensures t in Claims(r, graph) <==> exists c :: Claimed(graph, changes, pairings, c, t)
  {
    hide MatchClaims, Paired, P.DistinctKeys, P.OnePerNode, IsCorrelation, ClaimedFor, OrphanClaims, RecordClaims, FlatMap;
    MatchClaimsExactly(changes, pairings, r, graph, t);
    OrphanClaimsExactly(changes, pairings, r, graph, t);
    if t in FlatMap(MatchClaims(graph), r.matches) {
      var c, rec :| Survives(changes, c) && Paired(pairings, c, rec) && t in RecordClaims(c, graph)(rec);
      RecordClaimed(graph, c, rec, t);
      assert Claimed(graph, changes, pairings, c, t);
    }
    if t in FlatMap(OrphanClaims(), r.orphaned) {
      var c, rec :| c in changes && !c.structural && c.kind == LeafRemoved && Paired(pairings, c, rec) && t in OrphanClaims()(Orphaned(rec, c.nodeType));
      RecordClaimed(graph, c, rec, t);
      assert Claimed(graph, changes, pairings, c, t);
    }
    if c :| Claimed(graph, changes, pairings, c, t) {
      var rec :| Paired(pairings, c, rec) && ClaimedFor(graph, c, rec, t);
      RecordClaimed(graph, c, rec, t);
      assert c.kind != LeafRemoved ==> Survives(changes, c);
    }
  }

  lemma RecordClaimed(graph: Specs, c: NodeChange, rec: Pairing, t: string)
    ensures (if c.kind == LeafRemoved then t in OrphanClaims()(Orphaned(rec, c.nodeType)) else t in RecordClaims(c, graph)(rec)) <==> ClaimedFor(graph, c, rec, t)
  {
    hide TheSection;
    SectionAgrees(graph, c);
  }

  lemma SectionAgrees(graph: Specs, c: NodeChange)
    ensures SectionOf(graph, c) == TheSection(graph, c) && (IsFoldback(c, graph) <==> FoldsBack(graph, c))
  {
  }

  // ---- the answer ----

  lemma KindsListed(x: Action, y: Action)
    ensures x.kind != y.kind ==> (Less(KindName(x.kind), KindName(y.kind)) <==> x.kind == ActionCreate || (x.kind == ActionObsolete && y.kind == ActionRetarget))
    ensures KindName(x.kind) == KindName(y.kind) <==> x.kind == y.kind
  {
    assert "create"[0] == 'c' && "obsolete"[0] == 'o' && "retarget"[0] == 'r';
  }

  lemma LexFive(a: seq<string>, b: seq<string>)
    requires |a| == |b| == 5 && LexLeq(a, b)
    ensures if a[0] != b[0] then Less(a[0], b[0])
            else if a[1] != b[1] then Less(a[1], b[1])
            else if a[2] != b[2] then Less(a[2], b[2])
            else if a[3] != b[3] then Less(a[3], b[3])
            else Leq(a[4], b[4])
  {
    assert a[0] == b[0] ==> LexLeq(a[1..], b[1..]);
    assert a[1..][1..] == a[2..] && b[1..][1..] == b[2..] && a[2..][1..] == a[3..] && b[2..][1..] == b[3..] && a[3..][1..] == a[4..] && b[3..][1..] == b[4..];
    assert a[0] == b[0] && a[1] == b[1] ==> LexLeq(a[2..], b[2..]);
    assert a[0] == b[0] && a[1] == b[1] && a[2] == b[2] ==> LexLeq(a[3..], b[3..]);
    assert a[0] == b[0] && a[1] == b[1] && a[2] == b[2] && a[3] == b[3] ==> LexLeq(a[4..], b[4..]);
  }

  lemma ListedExactly(x: Action, y: Action)
    requires ActionLeq(x, y)
    ensures ListedBefore(x, y)
  {
    hide LexLeq, KindName;
    LexFive(SortKey(x), SortKey(y));
    KindsListed(x, y);
  }

  lemma ListMember(changes: seq<NodeChange>, pairings: seq<Pairing>, r: Correlated, graph: Specs, a: Action)
    requires P.DistinctKeys(changes) && P.OnePerNode(pairings) && IsCorrelation(changes, pairings, r)
    ensures a in FlatMap(AddOn(ChangesOf(r.matches, r.unmatched), graph), RawActions(r, graph)) <==> exists c :: Owed(graph, changes, pairings, c, a)
  {
    hide IsCorrelation, P.DistinctKeys, P.OnePerNode, Owed, RawFor, RawActions, WithFlows, FlowsNaming, ChangesOf;
    var f := AddOn(ChangesOf(r.matches, r.unmatched), graph);
    FlatMapMember(f, RawActions(r, graph), a);
    forall raw
      ensures a in f(raw) <==> a == Final(r, graph, raw)
    {
    }
    if a in FlatMap(f, RawActions(r, graph)) {
      var raw :| raw in RawActions(r, graph) && a in f(raw);
      RawExactly(changes, pairings, r, graph, raw);
      var c :| RawFor(graph, changes, pairings, c, raw);
      FinalExactly(changes, pairings, r, graph, c, a);
    }
    if c :| Owed(graph, changes, pairings, c, a) {
      FinalExactly(changes, pairings, r, graph, c, a);
      var raw :| RawFor(graph, changes, pairings, c, raw) && a == Final(r, graph, raw);
      RawExactly(changes, pairings, r, graph, raw);
      assert a in f(raw);
    }
  }

  /** Every answer of a classification says what each change of the diff comes to, and nothing else. */
  lemma PlanSaysSo(changes: seq<NodeChange>, pairings: seq<Pairing>, r: Correlated, graph: Specs)
    requires P.DistinctKeys(changes) && P.OnePerNode(pairings) && IsCorrelation(changes, pairings, r)
    ensures PlanSays(graph, changes, pairings, Classified(r, graph))
  {
    hide IsCorrelation, P.DistinctKeys, P.OnePerNode, Owed, Claimed, Claims, RawActions, ActionLeq, ListedBefore, AddOn, ChangesOf;
    var claims := Claims(r, graph);
    forall t
      ensures t in claims <==> exists c :: Claimed(graph, changes, pairings, c, t)
    {
      ClaimsExactly(changes, pairings, r, graph, t);
    }
    if claims != [] {
      SortedClaims(claims);
    } else {
      forall c, t
        ensures !Claimed(graph, changes, pairings, c, t)
      {
        assert t !in claims;
      }
      ListSays(changes, pairings, r, graph);
    }
  }

  /** The list of actions, once nothing is claimed. */
  lemma ListSays(changes: seq<NodeChange>, pairings: seq<Pairing>, r: Correlated, graph: Specs)
    requires P.DistinctKeys(changes) && P.OnePerNode(pairings) && IsCorrelation(changes, pairings, r)
    requires Claims(r, graph) == []
    ensures var out := Classified(r, graph);
            && out.Ok? && (forall a :: a in out.value <==> exists c :: Owed(graph, changes, pairings, c, a))
            && forall i, j :: 0 <= i < j < |out.value| ==> out.value[i].node != out.value[j].node && ListedBefore(out.value[i], out.value[j])
  {
    hide IsCorrelation, P.DistinctKeys, P.OnePerNode, Owed, Claims, RawActions, ActionLeq, ListedBefore, AddOn, ChangesOf, FlatMap;
    var all := FlatMap(AddOn(ChangesOf(r.matches, r.unmatched), graph), RawActions(r, graph));
    var sorted := SortBy(ActionLeq, all);
    forall a
      ensures a in sorted <==> exists c :: Owed(graph, changes, pairings, c, a)
    {
      ListMember(changes, pairings, r, graph, a);
      assert a in sorted <==> a in multiset(sorted);
      assert a in all <==> a in multiset(all);
    }
    P.ClassifiedDistinct(changes, pairings, r, graph);
    ListOrdered(sorted, all);
  }

  lemma SortedClaims(claims: seq<string>)
    requires claims != []
    ensures SortStrings(claims) != [] && SortedBy(Leq, SortStrings(claims)) && forall t :: t in SortStrings(claims) <==> t in claims
  {
    LeqOrdering();
    SortBySorted(Leq, claims);
    assert multiset(SortStrings(claims)) == multiset(claims);
    assert claims[0] in multiset(claims);
    assert forall t :: t in SortStrings(claims) <==> t in multiset(SortStrings(claims));
    assert forall t :: t in claims <==> t in multiset(claims);
  }

  lemma ListOrdered(sorted: seq<Action>, all: seq<Action>)
    requires sorted == SortBy(ActionLeq, all)
    ensures forall i, j :: 0 <= i < j < |sorted| ==> ListedBefore(sorted[i], sorted[j])
  {
    hide ActionLeq, ListedBefore;
    ActionOrdering();
    SortBySorted(ActionLeq, all);
    forall i, j | 0 <= i < j < |sorted|
      ensures ListedBefore(sorted[i], sorted[j])
    {
      ListedExactly(sorted[i], sorted[j]);
    }
  }
}
