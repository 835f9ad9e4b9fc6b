/**
 What a built changeset holds, operation by operation, in terms of the actions, the
 planner's view of the journal and the declared types.
 */
module OpLaws {
  import opened Results
  import opened Order
  import opened PlanTypes
  import opened Bags
  import opened Sorter
  import opened LayerEdges
  import opened Resolver
  import opened Labeler
  import opened Builder
  import opened LayerLaws
  import SpecGraph
  import Matcher
  import A = ActionLaws
  import L = ChangesetLaws

  // ---- what each operation says ----

  /** The kind of node a create is for. */
  function KindOf(a: Action): string {
    if EpicAction(a) then "proposal_epic" else if CleanupCreate(a) then "cleanup" else a.nodeType
  }

  function CreateId(a: Action): string {
    "op-" + KindOf(a) + "-" + a.node
  }

  /** The creates of the run: the plan's, and the epic's when no task carries the proposal yet. */
  function CreatesOf(s: Setting, actions: seq<Action>): seq<Action> {
    (if s.proposal in s.fold.lookup then []
     else [Action(ActionCreate, "", "", "", "proposal_epic", s.proposal, "", [], "Proposal: " + s.proposal)])
    + OfKind(actions, ActionCreate)
  }

  /** The task that carries the proposal, or the epic's own create. */
  function ParentOf(s: Setting): Ref {
    if s.proposal in s.fold.lookup then TaskRef(s.fold.lookup[s.proposal].task) else OpRef("op-proposal_epic-" + s.proposal)
  }

  function TitleOf(a: Action): string {
    if EpicAction(a) || CleanupCreate(a) then a.reason
    else if a.nodeType == "data_flow" then a.mod + ": data_flow " + a.name
    else if a.nodeType == "test_section" then a.mod + ": test " + a.name
    else a.mod + ": " + a.name
  }

  /** The eid the operation's event will carry: the registration's for the epic, a removal's that already landed for a
      cleanup, the operation's own otherwise. */
  function TagOf(s: Setting, a: Action): string {
    if EpicAction(a) then "spex:" + s.registration
    else if CleanupCreate(a) && a.node in s.fold.removal && s.fold.removal[a.node] != "" then "spex:" + s.fold.removal[a.node]
    else "spex:" + s.gitHead + ":" + CreateId(a)
  }

  /** A create of the nearest lower layer that has one; the epic is no layer. */
  ghost predicate Feeds(s: Setting, sorted: seq<Action>, b: Action, a: Action) {
    && b in sorted && !EpicAction(b) && Earlier(s.planRelevant, b, a)
    && forall c :: c in sorted && !EpicAction(c) ==> !(Earlier(s.planRelevant, b, c) && Earlier(s.planRelevant, c, a))
  }

  /** A dependency of the action that is created in this run. */
  ghost predicate DependsOnOp(sorted: seq<Action>, a: Action, id: string) {
    exists b :: b in sorted && b.node in a.deps && id == CreateId(b)
  }

  /** A dependency of the action that is not, and whose task is not finished. */
  ghost predicate DependsOnTask(s: Setting, sorted: seq<Action>, a: Action, t: string) {
    exists d :: d in a.deps && (forall b :: b in sorted ==> b.node != d) && d in s.fold.lookup
      && s.fold.lookup[d].status in ["open", "in_progress"] && s.fold.lookup[d].task == t
  }

  ghost predicate CreateDeps(s: Setting, actions: seq<Action>, sorted: seq<Action>, a: Action, deps: seq<Ref>) {
    && (forall id :: OpRef(id) in deps <==> DependsOnOp(sorted, a, id) || exists b :: Feeds(s, sorted, b, a) && id == CreateId(b))
    && (forall t :: TaskRef(t) in deps <==>
          DependsOnTask(s, sorted, a, t) || (CleanupCreate(a) && exists r :: r in actions && r.kind == ActionRetarget && r.task == t))
  }

  ghost predicate CreateSays(s: Setting, actions: seq<Action>, sorted: seq<Action>, a: Action, op: Op) {
    && op.kind == Create && op.opId == CreateId(a) && op.nodeKind == KindOf(a) && op.node == a.node
    && op.title == TitleOf(a) && op.idemLabel == Some(TagOf(s, a))
    && op.hash == "" && op.target == None && op.labels == [] && op.reason == ""
    && (if EpicAction(a) then op.parent == None && op.deps == []
        else op.parent == Some(ParentOf(s)) && CreateDeps(s, actions, sorted, a, op.deps))
  }

  ghost predicate RetargetSays(s: Setting, sorted: seq<Action>, a: Action, op: Op) {
    && op.kind == Retarget && op.opId == "op-retarget-" + a.node && op.node == a.node && op.hash == a.hash
    && op.target == Some(TaskRef(a.task)) && op.reason == a.reason && op.labels == ["spex:" + s.gitHead + ":op-retarget-" + a.node]
    && op.parent == None && op.nodeKind == "" && op.title == "" && op.idemLabel == None
    && (forall id :: OpRef(id) in op.deps <==> DependsOnOp(sorted, a, id))
    && (forall t :: TaskRef(t) in op.deps <==> DependsOnTask(s, sorted, a, t))
  }

  ghost predicate CloseSays(a: Action, op: Op) {
    && op.kind == Close && op.opId == "op-close-" + a.task && op.target == Some(TaskRef(a.task)) && op.reason == a.reason
    && op.parent == None && op.deps == [] && op.nodeKind == "" && op.node == "" && op.hash == "" && op.title == ""
    && op.idemLabel == None && op.labels == []
  }

  /** Creates in sorted order, then the retargets and then the closes in the order of the plan. */
  ghost predicate ChangesetSays(s: Setting, actions: seq<Action>, sorted: seq<Action>, cs: Changeset) {
    var retargets, closes := OfKind(actions, ActionRetarget), OfKind(actions, ActionObsolete);
    && cs.gitHead == s.gitHead && cs.proposal == s.proposal && cs.absorbed == s.absorbed
    && SortSays(s.planRelevant, CreatesOf(s, actions), Ok(sorted))
    && |cs.ops| == |sorted| + |retargets| + |closes|
    && (forall i :: 0 <= i < |sorted| ==> CreateSays(s, actions, sorted, sorted[i], cs.ops[i]))
    && (forall i :: 0 <= i < |retargets| ==> RetargetSays(s, sorted, retargets[i], cs.ops[|sorted| + i]))
    && (forall i :: 0 <= i < |closes| ==> CloseSays(closes[i], cs.ops[|sorted| + |retargets| + i]))
  }

  // ---- the proofs ----

  /** The list holds the actions of a kind among the first n, in their order. */
  ghost predicate KindAt(actions: seq<Action>, kind: ActionType, n: nat, at: seq<nat>, list: seq<Action>) {
    && |at| == |list| && n <= |actions| && (forall i, j :: 0 <= i < j < |at| ==> at[i] < at[j])
    && (forall k: nat :: k in at <==> k < n && actions[k].kind == kind)
    && (forall i :: 0 <= i < |at| ==> at[i] < n && actions[at[i]] == list[i])
  }

  lemma OfKindExactly(actions: seq<Action>, kind: ActionType) returns (at: seq<nat>)
    ensures KindAt(actions, kind, |actions|, at, OfKind(actions, kind))
  {
    at := KindUpTo(actions, kind, |actions|);
    assert actions[..|actions|] == actions;
  }

  lemma {:induction false} KindUpTo(actions: seq<Action>, kind: ActionType, n: nat) returns (at: seq<nat>)
    requires n <= |actions|
    ensures KindAt(actions, kind, n, at, OfKind(actions[..n], kind))
  {
    at := [];
    if n > 0 {
      hide KindAt;
      var init := KindUpTo(actions, kind, n - 1);
      KindNext(actions, kind, n - 1);
      at := KindAtNext(actions, kind, n - 1, init, OfKind(actions[..n - 1], kind));
    }
  }

  lemma KindAtNext(actions: seq<Action>, kind: ActionType, n: nat, init: seq<nat>, list: seq<Action>) returns (at: seq<nat>)
    requires n < |actions| && KindAt(actions, kind, n, init, list)
    ensures KindAt(actions, kind, n + 1, at, list + if actions[n].kind == kind then [actions[n]] else [])
  {
    at := init;
    if actions[n].kind == kind {
      Appended(init, n);
      at := init + [n];
    }
  }

  lemma KindNext(actions: seq<Action>, kind: ActionType, n: nat)
    requires n < |actions|
    ensures OfKind(actions[..n + 1], kind) == OfKind(actions[..n], kind) + if actions[n].kind == kind then [actions[n]] else []
  {
    assert actions[..n + 1][..n] == actions[..n];
  }

  lemma EpicResolves(s: Setting, epic: Option<Action>, actions: seq<Action>)
    requires ResolveEpicAction(s.proposal, s.fold, s.registration) == Ok(epic)
    ensures BatchWithEpic(epic, actions) == CreatesOf(s, actions)
    ensures s.proposal !in s.fold.lookup ==> s.registration != ""
  {
  }

  lemma KindAgrees(a: Action)
    ensures CreateKind(a) == KindOf(a) && CreateOpId(a) == CreateId(a)
  {
  }

  lemma BatchExactly(sorted: seq<Action>, d: string)
    requires DistinctIds(sorted)
    ensures d in BatchOf(sorted) <==> exists b :: b in sorted && b.node == d
    ensures forall b :: b in sorted && b.node == d ==> d in BatchOf(sorted) && BatchOf(sorted)[d] == CreateId(b)
  {
    forall b | b in sorted && b.node == d
      ensures d in BatchOf(sorted) && BatchOf(sorted)[d] == CreateId(b)
    {
      var j :| 0 <= j < |sorted| && sorted[j] == b;
      L.BatchPoints(sorted, j);
      KindAgrees(b);
    }
  }

  lemma SpecOpExactly(s: Setting, sorted: seq<Action>, retargets: seq<Action>, a: Action, id: string)
    requires DistinctIds(sorted) && AllPlaced(sorted, s.planRelevant)
    ensures L.SpecOpDep(ContextOf(s, sorted, retargets), a, id) <==> DependsOnOp(sorted, a, id)
  {
    hide DistinctIds, BatchOf, FileIndex, CreateId, AllPlaced;
    var batch := BatchOf(sorted);
    forall d
      ensures d in batch <==> exists b :: b in sorted && b.node == d
      ensures forall b :: b in sorted && b.node == d ==> d in batch && batch[d] == CreateId(b)
    {
      BatchExactly(sorted, d);
    }
    if d :| d in a.deps && d in batch && batch[d] == id {
      var b :| b in sorted && b.node == d;
      assert id == CreateId(b);
    }
  }

  lemma SpecTaskExactly(s: Setting, sorted: seq<Action>, retargets: seq<Action>, a: Action, t: string)
    requires DistinctIds(sorted) && AllPlaced(sorted, s.planRelevant)
    ensures L.SpecTaskDep(ContextOf(s, sorted, retargets), a, t) <==> DependsOnTask(s, sorted, a, t)
  {
    hide DistinctIds, FileIndex, AllPlaced;
    var batch := BatchOf(sorted);
    forall d
      ensures d in batch <==> exists b :: b in sorted && b.node == d
    {
      BatchExactly(sorted, d);
    }
  }

  lemma FeedsExactly(s: Setting, sorted: seq<Action>, j: nat, i: nat)
    requires AllPlaced(sorted, s.planRelevant) && j < |sorted| && i < |sorted|
    ensures FeedsLayer(LayersOf(sorted, s.planRelevant), j, i) <==> Feeds(s, sorted, sorted[j], sorted[i])
  {
    hide LayerFor, Earlier, EpicAction;
    var layers := LayersOf(sorted, s.planRelevant);
    forall k, l | 0 <= k < |sorted| && 0 <= l < |sorted|
      ensures layers[k] < layers[l] <==> Earlier(s.planRelevant, sorted[k], sorted[l])
    {
      EarlierExactly(s.planRelevant, sorted[k], sorted[l]);
    }
    forall k | 0 <= k < |sorted|
      ensures layers[k] == 0 <==> EpicAction(sorted[k])
    {
      EpicLayer(s.planRelevant, sorted[k]);
    }
    if Feeds(s, sorted, sorted[j], sorted[i]) {
      forall k | 0 <= k < |layers|
        ensures !(layers[j] < layers[k] < layers[i])
      {
        assert sorted[k] in sorted;
      }
    }
    if FeedsLayer(layers, j, i) {
      forall c | c in sorted && !EpicAction(c)
        ensures !(Earlier(s.planRelevant, sorted[j], c) && Earlier(s.planRelevant, c, sorted[i]))
      {
        var k :| 0 <= k < |sorted| && sorted[k] == c;
      }
    }
  }

  lemma EpicLayer(planRelevant: seq<string>, a: Action)
    requires LayerFor(a, planRelevant).Some?
    ensures LayerFor(a, planRelevant).value == 0 <==> EpicAction(a)
  {
    PlaceExactly(planRelevant, a);
  }

  lemma EdgeExactly(s: Setting, sorted: seq<Action>, i: nat, id: string)
    requires AllPlaced(sorted, s.planRelevant) && i < |sorted|
    ensures id in LayerEdge(LayersOf(sorted, s.planRelevant), OpIdsOf(sorted), i, |sorted|) <==>
            exists b :: Feeds(s, sorted, b, sorted[i]) && id == CreateId(b)
  {
    hide LayerFor, Feeds, FeedsLayer, CreateOpId, CreateId, LayerEdge;
    var layers, opIds := LayersOf(sorted, s.planRelevant), OpIdsOf(sorted);
    if id in LayerEdge(layers, opIds, i, |sorted|) {
      EdgeSource(layers, opIds, i, |sorted|, id);
      var j :| 0 <= j < |sorted| && FeedsLayer(layers, j, i) && id == opIds[j];
      FeedsExactly(s, sorted, j, i);
      KindAgrees(sorted[j]);
    }
    if b :| Feeds(s, sorted, b, sorted[i]) && id == CreateId(b) {
      FeederIn(s, sorted, b, sorted[i]);
      var j :| 0 <= j < |sorted| && sorted[j] == b;
      FeedsExactly(s, sorted, j, i);
      KindAgrees(b);
      EdgeMember(layers, opIds, i, j, |sorted|);
    }
  }

  lemma FeederIn(s: Setting, sorted: seq<Action>, b: Action, a: Action)
    requires Feeds(s, sorted, b, a)
    ensures b in sorted
  {
  }

  lemma ParentExactly(s: Setting, actions: seq<Action>, cs: Changeset, epic: Option<Action>, sorted: seq<Action>)
    requires L.Parts(s, actions, cs, epic, sorted)
    ensures ResolveParent(s.proposal, s.fold, s.registration, BatchOf(sorted)) == Ok(ParentOf(s))
  {
    hide L.OpIs, BatchOf, DistinctIds, Ascends, OfKind;
    if s.proposal !in s.fold.lookup {
      var e := epic.value;
      L.SortedParts(s, actions, cs, epic, sorted);
      assert BatchWithEpic(epic, actions)[0] == e;
      assert e in multiset(BatchWithEpic(epic, actions));
      assert e in multiset(sorted);
      BatchExactly(sorted, s.proposal);
      EpicId(s.proposal, e);
    }
  }

  lemma TagExactly(s: Setting, a: Action, opId: string)
    requires opId == CreateId(a) && LabelFor(s.fold, s.gitHead, a, opId, s.registration).Ok?
    ensures LabelFor(s.fold, s.gitHead, a, opId, s.registration).value == TagOf(s, a)
  {
    hide CreateId;
    assert "spex:" + (s.gitHead + ":" + opId) == "spex:" + s.gitHead + ":" + opId;
  }

  lemma TitleExactly(a: Action)
    ensures TitleOf(a) == if EpicAction(a) || IsCleanup(a) then a.reason else TitleFor(a)
  {
  }

  /** The fields of a create, its dependencies still as composed. */
  lemma CreateFields(ctx: Context, a: Action, i: nat, op: Op)
    requires i < |ctx.opIds| && i < |ctx.edges| && ctx.opIds[i] == CreateId(a) && CreateOp(ctx, a, i) == Ok(op)
    ensures op.kind == Create && op.opId == CreateId(a) && op.nodeKind == KindOf(a) && op.node == a.node
    ensures op.title == TitleOf(a) && op.idemLabel == Some(TagOf(ctx.setting, a))
    ensures op.hash == "" && op.target == None && op.labels == [] && op.reason == ""
    ensures EpicAction(a) ==> op.parent == None && op.deps == []
    ensures !EpicAction(a) ==>
              var s := ctx.setting;
              && ResolveParent(s.proposal, s.fold, s.registration, ctx.batch).Ok?
              && op.parent == Some(ResolveParent(s.proposal, s.fold, s.registration, ctx.batch).value)
              && DepsOf(ctx, a, ctx.edges[i], if CleanupCreate(a) then ctx.targets else []) == Ok(op.deps)
  {
    hide LabelFor, ResolveParent, DepsOf, CreateId, TagOf, TitleFor;
    TagExactly(ctx.setting, a, ctx.opIds[i]);
    TitleExactly(a);
    KindAgrees(a);
  }

  lemma TargetsExactly(s: Setting, actions: seq<Action>, t: string)
    ensures t in SortStrings(TasksOf(OfKind(actions, ActionRetarget))) <==> exists r :: r in actions && r.kind == ActionRetarget && r.task == t
  {
    var retargets := OfKind(actions, ActionRetarget);
    var tasks := TasksOf(retargets);
    assert t in SortStrings(tasks) <==> t in multiset(SortStrings(tasks));
    assert t in tasks <==> t in multiset(tasks);
    if r :| r in actions && r.kind == ActionRetarget && r.task == t {
      assert r in retargets;
      var i :| 0 <= i < |retargets| && retargets[i] == r;
      assert tasks[i] == t;
    }
    if t in tasks {
      var i :| 0 <= i < |tasks| && tasks[i] == t;
      assert retargets[i] in retargets;
    }
  }

  lemma CreateDepsExactly(s: Setting, actions: seq<Action>, sorted: seq<Action>, i: nat, deps: seq<Ref>)
    requires DistinctIds(sorted) && AllPlaced(sorted, s.planRelevant) && i < |sorted|
    requires var ctx := ContextOf(s, sorted, OfKind(actions, ActionRetarget));
             DepsOf(ctx, sorted[i], ctx.edges[i], if CleanupCreate(sorted[i]) then ctx.targets else []) == Ok(deps)
    ensures CreateDeps(s, actions, sorted, sorted[i], deps)
  {
    hide DistinctIds, AllPlaced, DepsOf, L.SpecOpDep, L.SpecTaskDep, DependsOnOp, DependsOnTask, Feeds, LayerEdge, CreateId, CleanupCreate, OfKind;
    var a, retargets := sorted[i], OfKind(actions, ActionRetarget);
    var ctx := ContextOf(s, sorted, retargets);
    L.DepsContents(ctx, a, ctx.edges[i], if CleanupCreate(a) then ctx.targets else [], deps);
    forall id
      ensures OpRef(id) in deps <==> DependsOnOp(sorted, a, id) || exists b :: Feeds(s, sorted, b, a) && id == CreateId(b)
    {
      SpecOpExactly(s, sorted, retargets, a, id);
      EdgeExactly(s, sorted, i, id);
    }
    forall t
      ensures TaskRef(t) in deps <==> DependsOnTask(s, sorted, a, t) || (CleanupCreate(a) && exists r :: r in actions && r.kind == ActionRetarget && r.task == t)
    {
      SpecTaskExactly(s, sorted, retargets, a, t);
      TargetsExactly(s, actions, t);
    }
  }

  lemma CreateSaysSo(s: Setting, actions: seq<Action>, cs: Changeset, epic: Option<Action>, sorted: seq<Action>, i: nat)
    requires L.Parts(s, actions, cs, epic, sorted) && i < |sorted|
    ensures |cs.ops| >= |sorted| && CreateSays(s, actions, sorted, sorted[i], cs.ops[i])
  {
    hide L.Parts, CreateOp, ResolveParent, DepsOf, CreateDeps, CreateId, TagOf, TitleOf, KindOf, ParentOf, DistinctIds, LayerEdge, BatchOf;
    L.PlacedParts(s, actions, cs, epic, sorted);
    L.SortedParts(s, actions, cs, epic, sorted);
    L.CreateIs(s, actions, cs, epic, sorted, i);
    var ctx := ContextOf(s, sorted, OfKind(actions, ActionRetarget));
    KindAgrees(sorted[i]);
    CreateFields(ctx, sorted[i], i, cs.ops[i]);
    if !EpicAction(sorted[i]) {
      ParentExactly(s, actions, cs, epic, sorted);
      CreateDepsExactly(s, actions, sorted, i, cs.ops[i].deps);
    }
  }

  lemma RetargetFields(ctx: Context, a: Action, op: Op)
    requires RetargetOp(ctx, a) == Ok(op) && !EpicAction(a) && !IsCleanup(a)
    ensures op.kind == Retarget && op.opId == "op-retarget-" + a.node && op.node == a.node && op.hash == a.hash
    ensures op.target == Some(TaskRef(a.task)) && op.reason == a.reason && op.labels == ["spex:" + ctx.setting.gitHead + ":op-retarget-" + a.node]
    ensures op.parent == None && op.nodeKind == "" && op.title == "" && op.idemLabel == None
    ensures DepsOf(ctx, a, [], []) == Ok(op.deps)
  {
    hide DepsOf, IsCleanup;
    assert "spex:" + (ctx.setting.gitHead + ":" + ("op-retarget-" + a.node)) == "spex:" + ctx.setting.gitHead + ":op-retarget-" + a.node;
  }

  lemma RetargetSaysSo(s: Setting, actions: seq<Action>, cs: Changeset, epic: Option<Action>, sorted: seq<Action>, i: nat)
    requires L.Parts(s, actions, cs, epic, sorted) && i < |OfKind(actions, ActionRetarget)|
    requires !EpicAction(OfKind(actions, ActionRetarget)[i]) && !IsCleanup(OfKind(actions, ActionRetarget)[i])
    ensures |sorted| + i < |cs.ops| && RetargetSays(s, sorted, OfKind(actions, ActionRetarget)[i], cs.ops[|sorted| + i])
  {
    hide L.Parts, CreateOp, RetargetOp, DepsOf, DependsOnOp, DependsOnTask, DistinctIds, L.SpecOpDep, L.SpecTaskDep, OfKind, ContextOf, IsCleanup;
    var retargets := OfKind(actions, ActionRetarget);
    var a := retargets[i];
    L.PlacedParts(s, actions, cs, epic, sorted);
    L.SortedParts(s, actions, cs, epic, sorted);
    L.OpCount(s, actions, cs, epic, sorted);
    L.OpOf(s, actions, cs, epic, sorted, |sorted| + i);
    var ctx, op := ContextOf(s, sorted, retargets), cs.ops[|sorted| + i];
    ContextSetting(s, sorted, retargets);
    RetargetFields(ctx, a, op);
    L.DepsContents(ctx, a, [], [], op.deps);
    forall id
      ensures OpRef(id) in op.deps <==> DependsOnOp(sorted, a, id)
    {
      SpecOpExactly(s, sorted, retargets, a, id);
    }
    forall t
      ensures TaskRef(t) in op.deps <==> DependsOnTask(s, sorted, a, t)
    {
      SpecTaskExactly(s, sorted, retargets, a, t);
    }
  }

  lemma ContextSetting(s: Setting, sorted: seq<Action>, retargets: seq<Action>)
    requires AllPlaced(sorted, s.planRelevant)
    ensures ContextOf(s, sorted, retargets).setting == s
  {
  }

  lemma CloseSaysSo(s: Setting, actions: seq<Action>, cs: Changeset, epic: Option<Action>, sorted: seq<Action>, i: nat)
    requires L.Parts(s, actions, cs, epic, sorted) && i < |OfKind(actions, ActionObsolete)|
    ensures var n := |sorted| + |OfKind(actions, ActionRetarget)|; n + i < |cs.ops| && CloseSays(OfKind(actions, ActionObsolete)[i], cs.ops[n + i])
  {
    hide L.Parts, CreateOp, RetargetOp, OfKind, ContextOf;
    L.PlacedParts(s, actions, cs, epic, sorted);
    L.OpCount(s, actions, cs, epic, sorted);
    L.OpOf(s, actions, cs, epic, sorted, |sorted| + |OfKind(actions, ActionRetarget)| + i);
  }

  /** The classifier retargets neither epics nor cleanups. */
  ghost predicate PlainRetargets(actions: seq<Action>) {
    forall a :: a in actions && a.kind == ActionRetarget ==> !EpicAction(a) && !IsCleanup(a)
  }

  /** Every changeset a build returns says, operation by operation, what the plan and the journal ask for. */
  lemma ChangesetSaysSo(s: Setting, actions: seq<Action>, cs: Changeset) returns (sorted: seq<Action>)
    requires L.Built(s, actions, cs) && PlainRetargets(actions)
    ensures ChangesetSays(s, actions, sorted, cs)
  {
    hide L.Parts, L.Built, CreateSays, RetargetSays, CloseSays, OfKind, SortSays, CreatesOf;
    var epic;
    epic, sorted := BuiltSorted(s, actions, cs);
    L.BuiltHead(s, actions, cs);
    L.OpCount(s, actions, cs, epic, sorted);
    var retargets, closes := OfKind(actions, ActionRetarget), OfKind(actions, ActionObsolete);
    forall i | 0 <= i < |sorted|
      ensures CreateSays(s, actions, sorted, sorted[i], cs.ops[i])
    {
      CreateSaysSo(s, actions, cs, epic, sorted, i);
    }
    forall i | 0 <= i < |retargets|
      ensures RetargetSays(s, sorted, retargets[i], cs.ops[|sorted| + i])
    {
      assert retargets[i] in retargets;
      RetargetSaysSo(s, actions, cs, epic, sorted, i);
    }
    forall i | 0 <= i < |closes|
      ensures CloseSays(closes[i], cs.ops[|sorted| + |retargets| + i])
    {
      CloseSaysSo(s, actions, cs, epic, sorted, i);
    }
  }

  lemma BuiltSorted(s: Setting, actions: seq<Action>, cs: Changeset) returns (epic: Option<Action>, sorted: seq<Action>)
    requires L.Built(s, actions, cs)
    ensures L.Parts(s, actions, cs, epic, sorted) && SortSays(s.planRelevant, CreatesOf(s, actions), Ok(sorted))
  {
    hide SortOutcome, Composed, SortSays, CreatesOf, DistinctIds, OfKind;
    epic := ResolveEpicAction(s.proposal, s.fold, s.registration).value;
    var sr :| SortOutcome(BatchWithEpic(epic, actions), s.planRelevant, sr) && ComposedFrom(s, actions, sr, Ok(cs));
    sorted := sr.value;
    L.SortOrders(s, BatchWithEpic(epic, actions), sorted);
    L.ComposedOps(s, actions, sorted, cs.ops);
    SortSaysSo(s.planRelevant, BatchWithEpic(epic, actions), sr);
    EpicResolves(s, epic, actions);
  }

  lemma EpicAtHead(s: Setting, actions: seq<Action>, sorted: seq<Action>)
    requires SortSays(s.planRelevant, CreatesOf(s, actions), Ok(sorted)) && s.proposal !in s.fold.lookup && forall a :: a in actions ==> !EpicAction(a)
    ensures |sorted| > 0 && sorted[0] == CreatesOf(s, actions)[0] && forall i :: 0 < i < |sorted| ==> !EpicAction(sorted[i])
  {
    hide OfKind, IsCleanup, LeastFree, DependencyCycle, NoneNamesLater, AllHavePlace;
    var batch, e := CreatesOf(s, actions), CreatesOf(s, actions)[0];
    assert e in multiset(batch);
    assert e in multiset(sorted);
    var k :| 0 <= k < |sorted| && sorted[k] == e;
    forall i | 0 <= i < |sorted| && i != k
      ensures !EpicAction(sorted[i])
    {
      OnlyEpic(s, actions, sorted, i, k);
    }
    assert forall i :: 0 < i < |sorted| ==> !Earlier(s.planRelevant, sorted[i], sorted[0]);
  }

  lemma EpicId(proposal: string, a: Action)
    requires EpicAction(a) && a.node == proposal
    ensures CreateId(a) == "op-proposal_epic-" + proposal
  {
  }

  /** Where no task carries the proposal yet, its epic is created first, and every other create names it as its parent. */
  lemma EpicFirst(s: Setting, actions: seq<Action>, sorted: seq<Action>, cs: Changeset)
    requires ChangesetSays(s, actions, sorted, cs) && s.proposal !in s.fold.lookup && forall a :: a in actions ==> !EpicAction(a)
    ensures |cs.ops| > 0 && cs.ops[0].opId == "op-proposal_epic-" + s.proposal && cs.ops[0].nodeKind == "proposal_epic" && cs.ops[0].kind == Create
    ensures forall i :: 0 < i < |sorted| ==> cs.ops[i].parent == Some(OpRef(cs.ops[0].opId)) && cs.ops[i].nodeKind != "proposal_epic"
  {
    hide OfKind, CreateDeps, TagOf, TitleOf, IsCleanup, SortSays, RetargetSays, CloseSays, CreateId;
    EpicAtHead(s, actions, sorted);
    EpicId(s.proposal, sorted[0]);
    assert CreateSays(s, actions, sorted, sorted[0], cs.ops[0]);
    forall i | 0 < i < |sorted|
      ensures cs.ops[i].parent == Some(OpRef(cs.ops[0].opId)) && cs.ops[i].nodeKind != "proposal_epic"
    {
      assert CreateSays(s, actions, sorted, sorted[i], cs.ops[i]);
    }
  }

  lemma OnlyEpic(s: Setting, actions: seq<Action>, sorted: seq<Action>, i: nat, k: nat)
    requires multiset(sorted) == multiset(CreatesOf(s, actions)) && s.proposal !in s.fold.lookup && forall a :: a in actions ==> !EpicAction(a)
    requires i < |sorted| && k < |sorted| && i != k && EpicAction(sorted[k])
    ensures !EpicAction(sorted[i])
  {
    hide OfKind;
    var batch, e, rest := CreatesOf(s, actions), CreatesOf(s, actions)[0], OfKind(actions, ActionCreate);
    assert batch == [e] + rest;
    assert sorted[k] in multiset(batch);
    assert multiset(batch) == multiset{e} + multiset(rest);
    if EpicAction(sorted[i]) {
      assert sorted[i] in multiset(batch);
      assert sorted[i] == e && sorted[k] == e;
      assert e !in rest;
      TwiceCounts(sorted, i, k);
    }
  }

  lemma TwiceCounts(s: seq<Action>, i: nat, k: nat)
    requires i < |s| && k < |s| && i != k && s[i] == s[k]
    ensures multiset(s)[s[i]] >= 2
  {
    var a, b := if i < k then i else k, if i < k then k else i;
    assert s == s[..a] + [s[a]] + s[a + 1..b] + [s[b]] + s[b + 1..];
  }

  // ---- refusals ----

  /** The action depends on a node that is neither created in this run nor tracked. */
  ghost predicate Dangling(s: Setting, actions: seq<Action>, a: Action, d: string) {
    && !EpicAction(a) && (a in actions && (a.kind == ActionRetarget || a.kind == ActionCreate))
    && d in a.deps && (forall b :: b in CreatesOf(s, actions) ==> b.node != d) && d !in s.fold.lookup
  }

  /** The whole answer of a build. */
  ghost predicate BuildSays(s: Setting, actions: seq<Action>, r: Result<Changeset, BuildError>) {
    match r
    case Ok(cs) =>
      && (s.proposal in s.fold.lookup || s.registration != "") && (forall a, d :: !Dangling(s, actions, a, d))
      && exists sorted :: ChangesetSays(s, actions, sorted, cs)
    case Err(Sorting(e)) => (s.proposal in s.fold.lookup || s.registration != "") && SortSays(s.planRelevant, CreatesOf(s, actions), Err(e))
    case Err(Plan(Unregistered(p))) => p == s.proposal && s.proposal !in s.fold.lookup && s.registration == ""
    case Err(Plan(UnresolvedDep(d))) => exists a :: Dangling(s, actions, a, d)
    case Err(Plan(NoNodeId)) => exists a :: a in actions && a.node == "" && (a.kind == ActionCreate || a.kind == ActionRetarget)
    case Err(Plan(EpicMissing(_))) => false
  }

  lemma {:induction false} ResolvedErr(deps: seq<string>, batch: map<string, string>, fold: PlanFold)
    requires Resolved(deps, batch, fold).Err?
    ensures var e := Resolved(deps, batch, fold).error; e.UnresolvedDep? && e.dep in deps && e.dep !in batch && e.dep !in fold.lookup
  {
    var init := deps[..|deps| - 1];
    if Resolved(init, batch, fold).Err? {
      ResolvedErr(init, batch, fold);
    }
  }

  lemma {:induction false} OpsErr(ctx: Context, sorted: seq<Action>, retargets: seq<Action>, closes: seq<Action>, n: nat) returns (i: nat)
    requires |ctx.opIds| == |ctx.edges| == |sorted| && n <= |sorted| + |retargets| + |closes|
    requires OpsUpTo(ctx, sorted, retargets, closes, n).Err?
    ensures i < n && OpAt(ctx, sorted, retargets, closes, i) == Err(OpsUpTo(ctx, sorted, retargets, closes, n).error)
  {
    hide OpAt;
    if OpsUpTo(ctx, sorted, retargets, closes, n - 1).Err? {
      i := OpsErr(ctx, sorted, retargets, closes, n - 1);
    } else {
      i := n - 1;
    }
  }

  /** Why an operation could not be composed. */
  ghost predicate Fails(s: Setting, batch: map<string, string>, a: Action, e: PlanError) {
    || (e == NoNodeId && a.node == "" && !EpicAction(a))
    || (e.UnresolvedDep? && !EpicAction(a) && e.dep in a.deps && e.dep !in batch && e.dep !in s.fold.lookup)
  }

  lemma CreateErr(ctx: Context, a: Action, i: nat)
    requires i < |ctx.opIds| && i < |ctx.edges| && CreateOp(ctx, a, i).Err?
    requires EpicAction(a) ==> ctx.setting.registration != ""
    requires ResolveParent(ctx.setting.proposal, ctx.setting.fold, ctx.setting.registration, ctx.batch).Ok?
    ensures Fails(ctx.setting, ctx.batch, a, CreateOp(ctx, a, i).error)
  {
    hide ResolveParent, TitleFor, Arrange, IsCleanup, CleanupLabel;
    if Resolved(a.deps, ctx.batch, ctx.setting.fold).Err? {
      ResolvedErr(a.deps, ctx.batch, ctx.setting.fold);
    }
  }

  lemma RetargetErr(ctx: Context, a: Action)
    requires RetargetOp(ctx, a).Err? && !EpicAction(a)
    ensures Fails(ctx.setting, ctx.batch, a, RetargetOp(ctx, a).error)
  {
    hide Arrange, IsCleanup, CleanupLabel;
    if Resolved(a.deps, ctx.batch, ctx.setting.fold).Err? {
      ResolvedErr(a.deps, ctx.batch, ctx.setting.fold);
    }
  }

  ghost predicate NoEpics(actions: seq<Action>) {
    forall a :: a in actions ==> !EpicAction(a)
  }

  /** The sorted creates are those of the run. */
  lemma SortedMembers(s: Setting, actions: seq<Action>, sorted: seq<Action>, d: string)
    requires multiset(sorted) == multiset(CreatesOf(s, actions)) && DistinctIds(sorted)
    ensures d in BatchOf(sorted) <==> exists b :: b in CreatesOf(s, actions) && b.node == d
    ensures forall a :: a in sorted <==> a in CreatesOf(s, actions)
  {
    hide BatchOf, OfKind, DistinctIds;
    BatchExactly(sorted, d);
    var all := CreatesOf(s, actions);
    assert forall a :: a in sorted <==> a in multiset(sorted);
    assert forall a :: a in all <==> a in multiset(all);
  }

  lemma FailsDangling(s: Setting, actions: seq<Action>, sorted: seq<Action>, a: Action, e: PlanError)
    requires multiset(sorted) == multiset(CreatesOf(s, actions)) && DistinctIds(sorted)
    requires Fails(s, BatchOf(sorted), a, e) && a in actions && (a.kind == ActionCreate || a.kind == ActionRetarget)
    ensures BuildSays(s, actions, Err(Plan(e)))
  {
    hide OfKind, DistinctIds, BatchOf, CreatesOf;
    if e.UnresolvedDep? {
      SortedMembers(s, actions, sorted, e.dep);
      assert Dangling(s, actions, a, e.dep);
    }
  }

  lemma CreateFails(s: Setting, actions: seq<Action>, epic: Option<Action>, sorted: seq<Action>, ctx: Context, i: nat)
    requires ResolveEpicAction(s.proposal, s.fold, s.registration) == Ok(epic)
    requires multiset(sorted) == multiset(CreatesOf(s, actions)) && DistinctIds(sorted) && NoEpics(actions)
    requires ctx.setting == s && ctx.batch == BatchOf(sorted) && i < |sorted| && i < |ctx.opIds| && i < |ctx.edges|
    requires CreateOp(ctx, sorted[i], i).Err?
    ensures BuildSays(s, actions, Err(Plan(CreateOp(ctx, sorted[i], i).error)))
  {
    hide OfKind, DistinctIds, BatchOf, BuildSays, CreateOp, CreatesOf, Fails, ResolveParent, ResolveEpicAction, NoEpics, EpicAction;
    var a, e := sorted[i], CreateOp(ctx, sorted[i], i).error;
    SortedMembers(s, actions, sorted, "");
    ParentComposes(s, actions, epic, sorted);
    assert a in sorted;
    CreateErr(ctx, a, i);
    EpicNeverFails(s, ctx.batch, a, e);
    CreateOfPlan(s, actions, a);
    FailsDangling(s, actions, sorted, a, e);
  }

  lemma RetargetFails(s: Setting, actions: seq<Action>, sorted: seq<Action>, ctx: Context, a: Action)
    requires multiset(sorted) == multiset(CreatesOf(s, actions)) && DistinctIds(sorted) && PlainRetargets(actions)
    requires ctx.setting == s && ctx.batch == BatchOf(sorted) && a in OfKind(actions, ActionRetarget)
    requires RetargetOp(ctx, a).Err?
    ensures BuildSays(s, actions, Err(Plan(RetargetOp(ctx, a).error)))
  {
    hide DistinctIds, BatchOf, BuildSays, RetargetOp, CreatesOf, Fails, EpicAction, IsCleanup;
    RetargetErr(ctx, a);
    FailsDangling(s, actions, sorted, a, RetargetOp(ctx, a).error);
  }

  lemma ContextParts(s: Setting, sorted: seq<Action>, retargets: seq<Action>)
    requires AllPlaced(sorted, s.planRelevant)
    ensures var ctx := ContextOf(s, sorted, retargets);
            && ctx.setting == s && ctx.batch == BatchOf(sorted) && |ctx.opIds| == |ctx.edges| == |sorted|
            && forall i :: 0 <= i < |sorted| ==> ctx.opIds[i] == CreateOpId(sorted[i])
  {
  }

  lemma ComposedErr(s: Setting, actions: seq<Action>, sorted: seq<Action>) returns (i: nat)
    requires AllPlaced(sorted, s.planRelevant) && Composed(s, sorted, actions).Err?
    ensures var retargets, closes := OfKind(actions, ActionRetarget), OfKind(actions, ActionObsolete);
            var ctx := ContextOf(s, sorted, retargets);
            && i < |sorted| + |retargets|
            && Err(Composed(s, sorted, actions).error) ==
               if i < |sorted| then CreateOp(ctx, sorted[i], i) else RetargetOp(ctx, retargets[i - |sorted|])
  {
    hide OfKind, BatchOf, FileIndex, CreateOp, RetargetOp, OpsUpTo, LayerEdge, ContextOf, AllPlaced;
    var retargets, closes := OfKind(actions, ActionRetarget), OfKind(actions, ActionObsolete);
    i := OpsErr(ContextOf(s, sorted, retargets), sorted, retargets, closes, |sorted| + |retargets| + |closes|);
  }

  lemma OrderedParts(s: Setting, epic: Option<Action>, actions: seq<Action>, sorted: seq<Action>)
    requires L.Ordered(s, BatchWithEpic(epic, actions), sorted)
    ensures multiset(sorted) == multiset(BatchWithEpic(epic, actions)) && DistinctIds(sorted) && AllPlaced(sorted, s.planRelevant)
  {
    hide OfKind, Ascends, BatchWithEpic;
  }

  lemma ComposeFails(s: Setting, actions: seq<Action>, epic: Option<Action>, sorted: seq<Action>)
    requires ResolveEpicAction(s.proposal, s.fold, s.registration) == Ok(epic) && L.Ordered(s, BatchWithEpic(epic, actions), sorted)
    requires PlainRetargets(actions) && NoEpics(actions) && Composed(s, sorted, actions).Err?
    ensures BuildSays(s, actions, Err(Plan(Composed(s, sorted, actions).error)))
  {
    hide OfKind, DistinctIds, Composed, L.Ordered, BatchOf, BuildSays, CreateOp, RetargetOp, CreatesOf, BatchWithEpic, ContextOf, NoEpics, PlainRetargets, AllPlaced;
    var retargets := OfKind(actions, ActionRetarget);
    OrderedParts(s, epic, actions, sorted);
    EpicResolves(s, epic, actions);
    var ctx := ContextOf(s, sorted, retargets);
    ContextParts(s, sorted, retargets);
    var i := ComposedErr(s, actions, sorted);
    if i < |sorted| {
      CreateFails(s, actions, epic, sorted, ctx, i);
    } else {
      var a := retargets[i - |sorted|];
      assert a in retargets;
      RetargetFails(s, actions, sorted, ctx, a);
    }
  }

  lemma EpicNeverFails(s: Setting, batch: map<string, string>, a: Action, e: PlanError)
    requires Fails(s, batch, a, e)
    ensures !EpicAction(a)
  {
  }

  lemma CreateOfPlan(s: Setting, actions: seq<Action>, a: Action)
    requires a in CreatesOf(s, actions) && !EpicAction(a)
    ensures a in actions && a.kind == ActionCreate
  {
  }

  lemma ParentComposes(s: Setting, actions: seq<Action>, epic: Option<Action>, sorted: seq<Action>)
    requires ResolveEpicAction(s.proposal, s.fold, s.registration) == Ok(epic)
    requires multiset(sorted) == multiset(CreatesOf(s, actions)) && DistinctIds(sorted) && NoEpics(actions)
    ensures ResolveParent(s.proposal, s.fold, s.registration, BatchOf(sorted)).Ok?
    ensures forall a :: a in sorted && EpicAction(a) ==> s.registration != ""
  {
    hide BatchOf, OfKind, DistinctIds;
    SortedMembers(s, actions, sorted, s.proposal);
    var all := CreatesOf(s, actions);
    if s.proposal !in s.fold.lookup {
      assert all[0] in all && all[0].node == s.proposal;
    } else {
      assert all == OfKind(actions, ActionCreate);
    }
  }

  /** Once every operation is composed, nothing dangles. */
  lemma ComposedResolves(s: Setting, actions: seq<Action>, cs: Changeset, epic: Option<Action>, sorted: seq<Action>, a: Action, d: string)
    requires L.Parts(s, actions, cs, epic, sorted) && NoEpics(actions) && PlainRetargets(actions)
    ensures !Dangling(s, actions, a, d)
  {
    hide L.Parts, OfKind, DistinctIds, BatchOf, CreateOp, RetargetOp, CreatesOf, ContextOf, AllPlaced, DepsOf, TagOf, TitleOf, KindOf, CreateId;
    L.PlacedParts(s, actions, cs, epic, sorted);
    L.SortedParts(s, actions, cs, epic, sorted);
    PartsBatch(s, actions, cs, epic, sorted);
    SortedMembers(s, actions, sorted, d);
    var retargets := OfKind(actions, ActionRetarget);
    var ctx := ContextOf(s, sorted, retargets);
    ContextParts(s, sorted, retargets);
    if Dangling(s, actions, a, d) {
      if a.kind == ActionCreate {
        L.CreatesSorted(s, actions, cs, epic, sorted);
        var i :| 0 <= i < |sorted| && sorted[i] == a;
        L.CreateIs(s, actions, cs, epic, sorted, i);
        CreateResolves(ctx, a, i, cs.ops[i], d);
      } else {
        var i :| 0 <= i < |retargets| && retargets[i] == a;
        L.OpCount(s, actions, cs, epic, sorted);
        L.OpOf(s, actions, cs, epic, sorted, |sorted| + i);
        RetargetResolves(ctx, a, cs.ops[|sorted| + i], d);
      }
    }
  }

  lemma CreateResolves(ctx: Context, a: Action, i: nat, op: Op, d: string)
    requires i < |ctx.opIds| && i < |ctx.edges| && CreateOp(ctx, a, i) == Ok(op) && !EpicAction(a) && d in a.deps
    ensures d in ctx.batch || d in ctx.setting.fold.lookup
  {
    hide DepsOf, LabelFor, ResolveParent, TitleFor, CreateKind;
    DepsResolved(ctx, a, d, ctx.edges[i], if IsCleanup(a) then ctx.targets else []);
  }

  lemma RetargetResolves(ctx: Context, a: Action, op: Op, d: string)
    requires RetargetOp(ctx, a) == Ok(op) && d in a.deps
    ensures d in ctx.batch || d in ctx.setting.fold.lookup
  {
    hide DepsOf, LabelFor;
    DepsResolved(ctx, a, d, [], []);
  }

  lemma DepsResolved(ctx: Context, a: Action, d: string, edge: seq<string>, extra: seq<string>)
    requires d in a.deps && DepsOf(ctx, a, edge, extra).Ok?
    ensures d in ctx.batch || d in ctx.setting.fold.lookup
  {
    hide Arrange;
    ResolvedExactly(a.deps, ctx.batch, ctx.setting.fold);
  }

  lemma PartsBatch(s: Setting, actions: seq<Action>, cs: Changeset, epic: Option<Action>, sorted: seq<Action>)
    requires L.Parts(s, actions, cs, epic, sorted)
    ensures BatchWithEpic(epic, actions) == CreatesOf(s, actions) && (s.proposal in s.fold.lookup || s.registration != "")
  {
    hide L.OpIs, OfKind, DistinctIds, Ascends;
    EpicResolves(s, epic, actions);
  }

  lemma BuiltSays(s: Setting, actions: seq<Action>, cs: Changeset)
    requires L.Built(s, actions, cs) && PlainRetargets(actions) && NoEpics(actions)
    ensures BuildSays(s, actions, Ok(cs))
  {
    hide L.Built, L.Parts, ChangesetSays, Dangling, NoEpics, PlainRetargets;
    var sorted := ChangesetSaysSo(s, actions, cs);
    var epic, order := L.BuiltParts(s, actions, cs);
    PartsBatch(s, actions, cs, epic, order);
    forall a, d
      ensures !Dangling(s, actions, a, d)
    {
      ComposedResolves(s, actions, cs, epic, order, a, d);
    }
  }

  /** Every answer a build can give says what it should. */
  lemma BuildSaysSo(s: Setting, actions: seq<Action>, r: Result<Changeset, BuildError>)
    requires BuildOutcome(s, actions, r) && DistinctIds(CreatesOf(s, actions)) && PlainRetargets(actions) && NoEpics(actions)
    ensures BuildSays(s, actions, r)
  {
    hide BuildSays, SortOutcome, Composed, DistinctIds, CreatesOf, SortSays, PlainRetargets, NoEpics;
    var e := ResolveEpicAction(s.proposal, s.fold, s.registration);
    if e.Err? {
      UnregisteredSays(s, actions, r);
    } else {
      var epic := e.value;
      EpicResolves(s, epic, actions);
      var sr :| SortOutcome(BatchWithEpic(epic, actions), s.planRelevant, sr) && ComposedFrom(s, actions, sr, r);
      SortSaysSo(s.planRelevant, CreatesOf(s, actions), sr);
      if sr.Err? {
        SortingSays(s, actions, sr.error);
      } else {
        L.SortOrders(s, BatchWithEpic(epic, actions), sr.value);
        if Composed(s, sr.value, actions).Err? {
          ComposeFails(s, actions, epic, sr.value);
        } else {
          BuiltSays(s, actions, r.value);
        }
      }
    }
  }

  lemma UnregisteredSays(s: Setting, actions: seq<Action>, r: Result<Changeset, BuildError>)
    requires ResolveEpicAction(s.proposal, s.fold, s.registration).Err? && r == Err(Plan(ResolveEpicAction(s.proposal, s.fold, s.registration).error))
    ensures BuildSays(s, actions, r)
  {
  }

  lemma SortingSays(s: Setting, actions: seq<Action>, e: SortError)
    requires SortSays(s.planRelevant, CreatesOf(s, actions), Err(e)) && (s.proposal in s.fold.lookup || s.registration != "")
    ensures BuildSays(s, actions, Err(Sorting(e)))
  {
  }

  /** A plan's own actions are plain: no epics where no changed node is of that type, and retargets are no cleanups. */
  lemma PlannedPlain(graph: SpecGraph.Specs, changes: seq<Matcher.NodeChange>, pairings: seq<Pairing>, actions: seq<Action>)
    requires A.PlanSays(graph, changes, pairings, Ok(actions)) && forall c :: c in changes ==> c.nodeType != "proposal_epic"
    ensures PlainRetargets(actions) && NoEpics(actions)
  {
    hide A.DepsAre, A.FoldsBack, A.TheName, A.Claimed, A.OwesTask, A.Paired, A.ListedBefore;
    forall a | a in actions
      ensures !EpicAction(a) && (a.kind == ActionRetarget ==> !IsCleanup(a))
    {
      var c :| A.Owed(graph, changes, pairings, c, a);
      OwedPlain(graph, changes, pairings, c, a);
    }
  }

  lemma OwedPlain(graph: SpecGraph.Specs, changes: seq<Matcher.NodeChange>, pairings: seq<Pairing>, c: Matcher.NodeChange, a: Action)
    requires A.Owed(graph, changes, pairings, c, a)
    ensures c in changes && a.nodeType == c.nodeType && (a.kind == ActionRetarget ==> !IsCleanup(a))
  {
    hide A.DepsAre, A.FoldsBack, A.TheName, A.OwesTask, A.Paired;
    if a.kind == ActionRetarget {
      assert a.reason[0] == 'S';
    }
  }
}
