/**
 Turning correlated changes into creates, closes and retargets, or refusing the
 run when a claimed task is touched.
 */
module Classifier {
  import opened Results
  import opened Order
  import opened Bags
  import opened PlanTypes
  import opened Merkle
  import opened SpecGraph
  import opened Resolver
  import opened Matcher

  const KIND_MODULE := "module"

  // ---- what one change comes to ----

  function SectionOf(graph: Specs, c: NodeChange): Option<TestSection> {
    if c.mod in graph.byName then FindTestSection(graph.byName[c.mod].spec.testSections, c.key) else None
  }

  /** A test section that describes one component is covered by that component's own task. */
  predicate IsFoldback(c: NodeChange, graph: Specs) {
    c.nodeType == KIND_TEST_SECTION && SectionOf(graph, c).Some? && |SectionOf(graph, c).value.describes| == 1
  }

  function NodeName(graph: Specs, c: NodeChange): string {
    if c.mod !in graph.byName then
      c.key
    else
      var spec := graph.byName[c.mod].spec;
      if c.nodeType == KIND_COMPONENT && FindComponent(spec.components, c.key).Some? then
        FindComponent(spec.components, c.key).value.name
      else if c.nodeType == KIND_DATA_FLOW && FindDataFlow(spec.dataFlows, c.key).Some? then
        FindDataFlow(spec.dataFlows, c.key).value.name
      else if c.nodeType == KIND_TEST_SECTION && FindTestSection(spec.testSections, c.key).Some? then
        FindTestSection(spec.testSections, c.key).value.name
      else
        c.key
  }

  ghost function ChangeDeps(c: NodeChange, graph: Specs): seq<string> {
    if c.nodeType == KIND_COMPONENT then Listing(DepSet(graph, c.mod, c.key))
    else if c.nodeType == KIND_TEST_SECTION then Listing(set x | x in DescribesOf(graph, c.mod, c.key))
    else []
  }

  method DepsFor(c: NodeChange, graph: Specs) returns (deps: seq<string>)
    ensures deps == ChangeDeps(c, graph)
  {
    if c.nodeType == KIND_COMPONENT {
      deps := CollectDeps(c.mod, c.key, graph);
    } else if c.nodeType == KIND_TEST_SECTION {
      deps := CollectDescribes(c.mod, c.key, graph);
    } else {
      deps := [];
    }
  }

  function CloseAction(mod: string, name: string, nodeType: string, node: string, task: string, removed: bool): Action {
    Action(ActionObsolete, task, mod, name, nodeType, node, "", [],
           (if removed then "Spec node removed: " else "Spec node modified: ") + mod + "/" + name)
  }

  /** The action of a node that is in the spec: a create (no task) or a retarget. */
  function NodeAction(kind: ActionType, task: string, c: NodeChange, name: string, deps: seq<string>, reason: string): Action {
    Action(kind, task, c.mod, name, c.nodeType, c.key, c.newHash, deps, reason + c.mod + "/" + name)
  }

  function CleanupAction(rec: Pairing, nodeType: string): Action {
    Action(ActionCreate, "", rec.mod, rec.name, nodeType, rec.node, "", [], "Code cleanup: " + rec.mod + "/" + rec.name)
  }

  /** The pairing already carries the change's hash: it resurfaced from a partial run. */
  predicate AlreadyTracked(rec: Pairing, c: NodeChange) {
    rec.after != "" && rec.after == c.newHash
  }

  ghost function RecordActions(c: NodeChange, graph: Specs): Pairing -> seq<Action> {
    (rec: Pairing) =>
      if IsFoldback(c, graph) then
        if rec.status == STATUS_OPEN then [CloseAction(c.mod, NodeName(graph, c), c.nodeType, c.key, rec.task, false)] else []
      else if AlreadyTracked(rec, c) || rec.status == STATUS_IN_PROGRESS then
        []
      else if rec.status == STATUS_OPEN then
        [NodeAction(ActionRetarget, rec.task, c, NodeName(graph, c), ChangeDeps(c, graph), "Spec node modified (retarget): ")]
      else
        [NodeAction(ActionCreate, "", c, NodeName(graph, c), ChangeDeps(c, graph), "Spec node modified (new): ")]
  }

  function RecordClaims(c: NodeChange, graph: Specs): Pairing -> seq<string> {
    (rec: Pairing) =>
      if rec.status == STATUS_IN_PROGRESS && (IsFoldback(c, graph) || !AlreadyTracked(rec, c)) then [rec.task] else []
  }

  ghost function MatchActions(graph: Specs): Match -> seq<Action> {
    (m: Match) => FlatMap(RecordActions(m.change, graph), m.records)
  }

  function MatchClaims(graph: Specs): Match -> seq<string> {
    (m: Match) => FlatMap(RecordClaims(m.change, graph), m.records)
  }

  method ClassifyMatch(m: Match, graph: Specs) returns (actions: seq<Action>, claimed: seq<string>)
    ensures actions == MatchActions(graph)(m) && claimed == MatchClaims(graph)(m)
  {
    actions, claimed := [], [];
    var c := m.change;
    for k := 0 to |m.records|
      invariant actions == FlatMap(RecordActions(c, graph), m.records[..k])
      invariant claimed == FlatMap(RecordClaims(c, graph), m.records[..k])
    {
      FlatMapNext(RecordActions(c, graph), m.records, k);
      FlatMapNext(RecordClaims(c, graph), m.records, k);
      var rec := m.records[k];
      assert actions + [] == actions && claimed + [] == claimed;
      if IsFoldback(c, graph) {
        if rec.status == STATUS_OPEN {
          actions := actions + [CloseAction(c.mod, NodeName(graph, c), c.nodeType, c.key, rec.task, false)];
        } else if rec.status == STATUS_IN_PROGRESS {
          claimed := claimed + [rec.task];
        }
      } else if !AlreadyTracked(rec, c) {
        if rec.status == STATUS_OPEN {
          var deps := DepsFor(c, graph);
          actions := actions + [NodeAction(ActionRetarget, rec.task, c, NodeName(graph, c), deps, "Spec node modified (retarget): ")];
        } else if rec.status == STATUS_IN_PROGRESS {
          claimed := claimed + [rec.task];
        } else {
          var deps := DepsFor(c, graph);
          actions := actions + [NodeAction(ActionCreate, "", c, NodeName(graph, c), deps, "Spec node modified (new): ")];
        }
      }
    }
    assert m.records[..|m.records|] == m.records;
  }

  function OrphanActions(): Orphaned -> seq<Action> {
    (o: Orphaned) =>
      if o.record.status == STATUS_OPEN then
        [CloseAction(o.record.mod, o.record.name, o.nodeType, o.record.node, o.record.task, true)]
      else if o.record.status == STATUS_IN_PROGRESS then
        []
      else
        [CleanupAction(o.record, o.nodeType)]
  }

  function OrphanClaims(): Orphaned -> seq<string> {
    (o: Orphaned) => if o.record.status == STATUS_IN_PROGRESS && o.record.task != "" then [o.record.task] else []
  }

  /** The node types that owe tasks; a test section owes one when it describes two components or cannot be found. */
  predicate GateAdmits(c: NodeChange, graph: Specs) {
    c.nodeType == KIND_MODULE ||
    (c.nodeType in graph.planRelevant &&
     (c.nodeType == KIND_TEST_SECTION && SectionOf(graph, c).Some? ==> |SectionOf(graph, c).value.describes| >= 2))
  }

  ghost function UnmatchedActions(graph: Specs): NodeChange -> seq<Action> {
    (c: NodeChange) =>
      if c.kind == LeafRemoved || !GateAdmits(c, graph) then
        []
      else
        [NodeAction(ActionCreate, "", c, NodeName(graph, c), ChangeDeps(c, graph),
                    if c.kind == LeafModified then "Spec node modified (new): " else "New spec node: ")]
  }

  // ---- the data-flow add-on ----

  /** A changed data flow names the component among its uses. */
  predicate FlowNames(graph: Specs, c: NodeChange, comp: string) {
    c.nodeType == KIND_DATA_FLOW && c.mod in graph.byName
    && FindDataFlow(graph.byName[c.mod].spec.dataFlows, c.key).Some?
    && comp in FindDataFlow(graph.byName[c.mod].spec.dataFlows, c.key).value.uses
  }

  function FlowsNaming(changes: seq<NodeChange>, graph: Specs, comp: string): set<string> {
    set c | c in changes && FlowNames(graph, c, comp) :: c.key
  }

  function ChangesOf(matches: seq<Match>, unmatched: seq<NodeChange>): (r: seq<NodeChange>)
    ensures |r| == |matches| + |unmatched|
  {
    seq(|matches|, i requires 0 <= i < |matches| => matches[i].change) + unmatched
  }

  predicate TakesFlows(a: Action) {
    a.kind == ActionCreate && a.nodeType == KIND_COMPONENT && a.hash != ""
  }

  /** A component's create also waits for the changed data flows that name it. */
  ghost function WithFlows(a: Action, flows: set<string>): Action {
    if TakesFlows(a) && flows != {} then a.(deps := Listing((set d | d in a.deps) + flows)) else a
  }

  ghost function AddOn(changes: seq<NodeChange>, graph: Specs): Action -> seq<Action> {
    (a: Action) => [WithFlows(a, FlowsNaming(changes, graph, a.node))]
  }

  function FlowsAt(uses: map<string, set<string>>, comp: string): set<string> {
    if comp in uses then uses[comp] else {}
  }

  ghost predicate CollectsFlows(uses: map<string, set<string>>, changes: seq<NodeChange>, graph: Specs) {
    forall comp :: FlowsAt(uses, comp) == FlowsNaming(changes, graph, comp)
  }

  method AddFlow(uses: map<string, set<string>>, names: seq<string>, key: string) returns (r: map<string, set<string>>)
    ensures forall comp :: FlowsAt(r, comp) == FlowsAt(uses, comp) + if comp in names then {key} else {}
  {
    r := uses;
    for k := 0 to |names|
      invariant forall comp :: FlowsAt(r, comp) == FlowsAt(uses, comp) + if comp in names[..k] then {key} else {}
    {
      assert names[..k + 1] == names[..k] + [names[k]];
      r := r[names[k] := FlowsAt(r, names[k]) + {key}];
    }
    assert names[..|names|] == names;
  }

  lemma FlowsNext(changes: seq<NodeChange>, graph: Specs, comp: string, k: nat)
    requires k < |changes|
    ensures FlowsNaming(changes[..k + 1], graph, comp) ==
            FlowsNaming(changes[..k], graph, comp) + if FlowNames(graph, changes[k], comp) then {changes[k].key} else {}
  {
    assert changes[..k + 1] == changes[..k] + [changes[k]];
  }

  method ChangedDataFlowUses(changes: seq<NodeChange>, graph: Specs) returns (uses: map<string, set<string>>)
    ensures CollectsFlows(uses, changes, graph)
  {
    uses := map[];
    for k := 0 to |changes|
      invariant CollectsFlows(uses, changes[..k], graph)
    {
      var c := changes[k];
      forall comp
        ensures FlowsNaming(changes[..k + 1], graph, comp) ==
                FlowsNaming(changes[..k], graph, comp) + if FlowNames(graph, c, comp) then {c.key} else {}
      {
        FlowsNext(changes, graph, comp, k);
      }
      if c.nodeType == KIND_DATA_FLOW && c.mod in graph.byName {
        var flow := FindDataFlow(graph.byName[c.mod].spec.dataFlows, c.key);
        if flow.Some? {
          uses := AddFlow(uses, flow.value.uses, c.key);
        }
      }
    }
    assert changes[..|changes|] == changes;
  }

  method MergeDeps(deps: seq<string>, flows: set<string>) returns (r: seq<string>)
    ensures r == Listing((set d | d in deps) + flows)
  {
    var all := flows;
    for k := 0 to |deps|
      invariant all == (set d | d in deps[..k]) + flows
    {
      assert deps[..k + 1] == deps[..k] + [deps[k]];
      all := all + {deps[k]};
    }
    assert deps[..|deps|] == deps;
    r := SortedKeys(all);
    ListingIs(r, all);
  }

  method ApplyDataFlowAddOn(actions: seq<Action>, uses: map<string, set<string>>, ghost changes: seq<NodeChange>, graph: Specs)
    returns (r: seq<Action>)
    requires CollectsFlows(uses, changes, graph)
    ensures r == FlatMap(AddOn(changes, graph), actions)
  {
    hide FlowsNaming;
    r := [];
    for k := 0 to |actions|
      invariant r == FlatMap(AddOn(changes, graph), actions[..k])
    {
      FlatMapNext(AddOn(changes, graph), actions, k);
      var a := actions[k];
      var flows := FlowsAt(uses, a.node);
      if TakesFlows(a) && flows != {} {
        var deps := MergeDeps(a.deps, flows);
        a := a.(deps := deps);
      }
      r := r + [a];
    }
    assert actions[..|actions|] == actions;
  }

  // ---- the order of the list ----

  function KindName(kind: ActionType): string {
    match kind
    case ActionCreate => "create"
    case ActionObsolete => "obsolete"
    case ActionRetarget => "retarget"
  }

  function SortKey(a: Action): (r: seq<string>)
    ensures |r| == 5
  {
    [KindName(a.kind), a.mod, a.name, a.task, a.node]
  }

  predicate LexLeq(a: seq<string>, b: seq<string>) {
    a == [] || b == [] || (if a[0] == b[0] then LexLeq(a[1..], b[1..]) else Less(a[0], b[0]))
  }

  predicate ActionLeq(a: Action, b: Action) {
    LexLeq(SortKey(a), SortKey(b))
  }

  lemma {:induction false} LexTotal(a: seq<string>, b: seq<string>)
    ensures LexLeq(a, b) || LexLeq(b, a)
    ensures |a| == |b| && LexLeq(a, b) && LexLeq(b, a) ==> a == b
  {
    if a != [] && b != [] {
      LessTotal(a[0], b[0]);
      LexTotal(a[1..], b[1..]);
      if a[0] == b[0] {
        assert a == [a[0]] + a[1..] && b == [b[0]] + b[1..];
      } else if LexLeq(a, b) {
        LessAsymmetric(a[0], b[0]);
      }
    }
  }

  lemma {:induction false} LexTransitive(a: seq<string>, b: seq<string>, c: seq<string>)
    requires |a| == |b| == |c| && LexLeq(a, b) && LexLeq(b, c)
    ensures LexLeq(a, c)
  {
    if a != [] {
      if a[0] == b[0] && b[0] == c[0] {
        LexTransitive(a[1..], b[1..], c[1..]);
      } else if a[0] != b[0] && b[0] != c[0] {
        LessTransitive(a[0], b[0], c[0]);
        LessIrreflexive(a[0]);
      }
    }
  }

  lemma ActionOrdering()
    ensures Ordering(ActionLeq)
  {
    forall x: Action, y: Action
      ensures ActionLeq(x, y) || ActionLeq(y, x)
    {
      LexTotal(SortKey(x), SortKey(y));
    }
    forall x, y, z | ActionLeq(x, y) && ActionLeq(y, z)
      ensures ActionLeq(x, z)
    {
      LexTransitive(SortKey(x), SortKey(y), SortKey(z));
    }
  }

  // ---- the classification ----

  ghost function RawActions(r: Correlated, graph: Specs): seq<Action> {
    FlatMap(MatchActions(graph), r.matches) + FlatMap(OrphanActions(), r.orphaned) + FlatMap(UnmatchedActions(graph), r.unmatched)
  }

  function Claims(r: Correlated, graph: Specs): seq<string> {
    FlatMap(MatchClaims(graph), r.matches) + FlatMap(OrphanClaims(), r.orphaned)
  }

  /** The sorted actions, or every claimed task when there is one. */
  ghost function Classified(r: Correlated, graph: Specs): Result<seq<Action>, seq<string>> {
    if Claims(r, graph) != [] then
      Err(SortStrings(Claims(r, graph)))
    else
      Ok(SortBy(ActionLeq, FlatMap(AddOn(ChangesOf(r.matches, r.unmatched), graph), RawActions(r, graph))))
  }

  method ClassifyMatches(matches: seq<Match>, graph: Specs) returns (actions: seq<Action>, claimed: seq<string>)
    ensures actions == FlatMap(MatchActions(graph), matches) && claimed == FlatMap(MatchClaims(graph), matches)
  {
    actions, claimed := [], [];
    for k := 0 to |matches|
      invariant actions == FlatMap(MatchActions(graph), matches[..k]) && claimed == FlatMap(MatchClaims(graph), matches[..k])
    {
      FlatMapNext(MatchActions(graph), matches, k);
      FlatMapNext(MatchClaims(graph), matches, k);
      var acts, claims := ClassifyMatch(matches[k], graph);
      actions, claimed := actions + acts, claimed + claims;
    }
    assert matches[..|matches|] == matches;
  }

  method ClassifyOrphans(orphaned: seq<Orphaned>) returns (actions: seq<Action>, claimed: seq<string>)
    ensures actions == FlatMap(OrphanActions(), orphaned) && claimed == FlatMap(OrphanClaims(), orphaned)
  {
    actions, claimed := [], [];
    for k := 0 to |orphaned|
      invariant actions == FlatMap(OrphanActions(), orphaned[..k]) && claimed == FlatMap(OrphanClaims(), orphaned[..k])
    {
      FlatMapNext(OrphanActions(), orphaned, k);
      FlatMapNext(OrphanClaims(), orphaned, k);
      actions, claimed := actions + OrphanActions()(orphaned[k]), claimed + OrphanClaims()(orphaned[k]);
    }
    assert orphaned[..|orphaned|] == orphaned;
  }

  method ClassifyUnmatched(unmatched: seq<NodeChange>, graph: Specs) returns (actions: seq<Action>)
    ensures actions == FlatMap(UnmatchedActions(graph), unmatched)
  {
    actions := [];
    for k := 0 to |unmatched|
      invariant actions == FlatMap(UnmatchedActions(graph), unmatched[..k])
    {
      FlatMapNext(UnmatchedActions(graph), unmatched, k);
      var c := unmatched[k];
      assert actions + [] == actions;
      if c.kind != LeafRemoved && GateAdmits(c, graph) {
        var deps := DepsFor(c, graph);
        var reason := if c.kind == LeafModified then "Spec node modified (new): " else "New spec node: ";
        actions := actions + [NodeAction(ActionCreate, "", c, NodeName(graph, c), deps, reason)];
      }
    }
    assert unmatched[..|unmatched|] == unmatched;
  }

  /** Everything is classified before claims are looked at, so a refusal names all of them and leaks no action. */
  method ClassifyActions(r: Correlated, graph: Specs) returns (out: Result<seq<Action>, seq<string>>)
    ensures out == Classified(r, graph)
  {
    var changes := ChangesOf(r.matches, r.unmatched);
    var uses := ChangedDataFlowUses(changes, graph);
    var actions, claimed := ClassifyMatches(r.matches, graph);
    var cancelled, removedClaims := ClassifyOrphans(r.orphaned);
    claimed := claimed + removedClaims;
    if |claimed| > 0 {
      return Err(SortStrings(claimed));
    }
    var created := ClassifyUnmatched(r.unmatched, graph);
    actions := ApplyDataFlowAddOn(actions + cancelled + created, uses, changes, graph);
    return Ok(SortBy(ActionLeq, actions));
  }
}
