/**
 What holds of every changeset the builder returns: one forward pass can apply it,
 layers wait for the layers below, and dependencies are canonical.
 */
module ChangesetLaws {
  import opened Results
  import opened Order
  import opened Bags
  import opened PlanTypes
  import opened Sorter
  import opened LayerEdges
  import opened Resolver
  import opened Labeler
  import opened Builder

  // ---- one forward pass ----

  /** Every op a reference of the i-th operation names is a create strictly before it. */
  ghost predicate RefBack(ops: seq<Op>, i: nat, r: Ref)
    requires i < |ops|
  {
    r.OpRef? ==> exists j :: 0 <= j < i && ops[j].kind == Create && ops[j].opId == r.id
  }

  predicate Refers(op: Op, r: Ref) {
    r in op.deps || op.parent == Some(r)
  }

  ghost predicate Executable(ops: seq<Op>) {
    forall i, r :: 0 <= i < |ops| && Refers(ops[i], r) ==> RefBack(ops, i, r)
  }

  /** What an adapter that has created the tasks in `table` makes of a reference. */
  function Resolve(table: map<string, string>, r: Ref): Option<string> {
    match r
    case TaskRef(id) => Some(id)
    case OpRef(id) => if id in table then Some(table[id]) else None
  }

  ghost predicate Resolves(table: map<string, string>, op: Op) {
    forall r :: Refers(op, r) ==> Resolve(table, r).Some?
  }

  /** One pass over the first n operations; `tasks` are the ids the tracker hands out.  None when a reference is not known yet. */
  ghost function ForwardPass(ops: seq<Op>, tasks: seq<string>, n: nat): Option<map<string, string>>
    requires |tasks| == |ops| && n <= |ops|
  {
    if n == 0 then
      Some(map[])
    else
      var table := ForwardPass(ops, tasks, n - 1);
      if table.None? || !Resolves(table.value, ops[n - 1]) then None
      else if ops[n - 1].kind == Create then Some(table.value[ops[n - 1].opId := tasks[n - 1]])
      else table
  }

  lemma {:induction false} TableHolds(ops: seq<Op>, tasks: seq<string>, n: nat, id: string)
    requires |tasks| == |ops| && n <= |ops| && ForwardPass(ops, tasks, n).Some?
    ensures id in ForwardPass(ops, tasks, n).value <==> exists j :: 0 <= j < n && ops[j].kind == Create && ops[j].opId == id
  {
    if n > 0 {
      TableHolds(ops, tasks, n - 1, id);
    }
  }

  lemma ResolvesBack(ops: seq<Op>, tasks: seq<string>, i: nat)
    requires |tasks| == |ops| && i < |ops| && ForwardPass(ops, tasks, i).Some?
    ensures Resolves(ForwardPass(ops, tasks, i).value, ops[i]) <==> forall r :: Refers(ops[i], r) ==> RefBack(ops, i, r)
  {
    var table := ForwardPass(ops, tasks, i).value;
    forall r | Refers(ops[i], r)
      ensures Resolve(table, r).Some? <==> RefBack(ops, i, r)
    {
      if r.OpRef? {
        TableHolds(ops, tasks, i, r.id);
      }
    }
  }

  lemma {:induction false} PassStops(ops: seq<Op>, tasks: seq<string>, m: nat, n: nat)
    requires |tasks| == |ops| && m <= n <= |ops| && ForwardPass(ops, tasks, n).Some?
    ensures ForwardPass(ops, tasks, m).Some?
  {
    if m < n {
      PassStops(ops, tasks, m, n - 1);
    }
  }

  /** A single pass with a substitution table gets through exactly when references only point back. */
  lemma {:induction false} PassSucceeds(ops: seq<Op>, tasks: seq<string>, n: nat)
    requires |tasks| == |ops| && n <= |ops|
    ensures ForwardPass(ops, tasks, n).Some? <==> forall i, r :: 0 <= i < n && Refers(ops[i], r) ==> RefBack(ops, i, r)
  {
    if n > 0 {
      PassSucceeds(ops, tasks, n - 1);
      if ForwardPass(ops, tasks, n - 1).Some? {
        ResolvesBack(ops, tasks, n - 1);
      }
    }
  }

  // ---- the shape of a built changeset ----

  /** The pieces a built changeset was put together from. */
  ghost predicate Parts(s: Setting, actions: seq<Action>, cs: Changeset, epic: Option<Action>, sorted: seq<Action>) {
    && ResolveEpicAction(s.proposal, s.fold, s.registration) == Ok(epic)
    && Ordered(s, BatchWithEpic(epic, actions), sorted)
    && |cs.ops| == |sorted| + |OfKind(actions, ActionRetarget)| + |OfKind(actions, ActionObsolete)|
    && (forall i {:trigger OpIs(s, actions, sorted, i, cs.ops[i])} :: 0 <= i < |cs.ops| ==> OpIs(s, actions, sorted, i, cs.ops[i]))
  }

  /** The operation at position i is what its action composes to. */
  ghost predicate OpIs(s: Setting, actions: seq<Action>, sorted: seq<Action>, i: nat, op: Op)
    requires AllPlaced(sorted, s.planRelevant) && i < |sorted| + |OfKind(actions, ActionRetarget)| + |OfKind(actions, ActionObsolete)|
  {
    var retargets := OfKind(actions, ActionRetarget);
    OpAt(ContextOf(s, sorted, retargets), sorted, retargets, OfKind(actions, ActionObsolete), i) == Ok(op)
  }

  /** What the sort hands on: the batch rearranged, layers ascending, dependencies first. */
  ghost predicate Ordered(s: Setting, batch: seq<Action>, sorted: seq<Action>) {
    && AllPlaced(sorted, s.planRelevant) && DistinctIds(sorted) && multiset(sorted) == multiset(batch)
    && Ascends(LayersOf(sorted, s.planRelevant))
    && (forall i, d :: 0 <= i < |sorted| && d in sorted[i].deps && d in BatchOf(sorted) ==> d in IdsOf(sorted)[..i])
  }

  lemma SortOrders(s: Setting, batch: seq<Action>, sorted: seq<Action>)
    requires DistinctIds(batch) && SortOutcome(batch, s.planRelevant, Ok(sorted))
    ensures Ordered(s, batch, sorted)
  {
    SortedFacts(batch, s.planRelevant, sorted);
    SortedDepsFirst(batch, s.planRelevant, sorted);
    hide SortOutcome, DistinctIds, AllPlaced, Ascends, LayersOf;
    forall d | d in BatchOf(sorted)
      ensures d in NodeSet(batch)
    {
      var a :| a in sorted && a.node == d;
      assert a in multiset(batch);
    }
  }

  ghost predicate Built(s: Setting, actions: seq<Action>, cs: Changeset) {
    BuildOutcome(s, actions, Ok(cs)) &&
    match ResolveEpicAction(s.proposal, s.fold, s.registration)
    case Ok(epic) => DistinctIds(BatchWithEpic(epic, actions))
    case Err(_) => true
  }

  lemma BuiltParts(s: Setting, actions: seq<Action>, cs: Changeset) returns (epic: Option<Action>, sorted: seq<Action>)
    requires Built(s, actions, cs)
    ensures Parts(s, actions, cs, epic, sorted)
  {
    hide SortOutcome, Composed;
    epic := ResolveEpicAction(s.proposal, s.fold, s.registration).value;
    var sr :| SortOutcome(BatchWithEpic(epic, actions), s.planRelevant, sr) && ComposedFrom(s, actions, sr, Ok(cs));
    sorted := sr.value;
    SortOrders(s, BatchWithEpic(epic, actions), sorted);
    ComposedOps(s, actions, sorted, cs.ops);
  }

  lemma ComposedOps(s: Setting, actions: seq<Action>, sorted: seq<Action>, ops: seq<Op>)
    requires AllPlaced(sorted, s.planRelevant) && Composed(s, sorted, actions) == Ok(ops)
    ensures |ops| == |sorted| + |OfKind(actions, ActionRetarget)| + |OfKind(actions, ActionObsolete)|
    ensures forall i {:trigger OpIs(s, actions, sorted, i, ops[i])} :: 0 <= i < |ops| ==> OpIs(s, actions, sorted, i, ops[i])
  {
    hide OpAt, OpsUpTo, ContextOf, AllPlaced;
    var retargets, obsoletes := OfKind(actions, ActionRetarget), OfKind(actions, ActionObsolete);
    OpsAre(ContextOf(s, sorted, retargets), sorted, retargets, obsoletes, |sorted| + |retargets| + |obsoletes|, ops);
  }

  lemma {:induction false} OpsAre(ctx: Context, sorted: seq<Action>, retargets: seq<Action>, obsoletes: seq<Action>, n: nat, ops: seq<Op>)
    requires |ctx.opIds| == |ctx.edges| == |sorted| && n <= |sorted| + |retargets| + |obsoletes|
    requires OpsUpTo(ctx, sorted, retargets, obsoletes, n) == Ok(ops)
    ensures |ops| == n && forall i :: 0 <= i < n ==> OpAt(ctx, sorted, retargets, obsoletes, i) == Ok(ops[i])
  {
    hide OpAt;
    if n > 0 {
      var before := OpsUpTo(ctx, sorted, retargets, obsoletes, n - 1).value;
      OpsAre(ctx, sorted, retargets, obsoletes, n - 1, before);
      assert ops[..n - 1] == before;
    }
  }

  /** The i-th operation is what its action composes to. */
  lemma OpOf(s: Setting, actions: seq<Action>, cs: Changeset, epic: Option<Action>, sorted: seq<Action>, i: nat)
    requires Parts(s, actions, cs, epic, sorted) && i < |cs.ops|
    ensures |cs.ops| == |sorted| + |OfKind(actions, ActionRetarget)| + |OfKind(actions, ActionObsolete)|
    ensures OpAt(ContextOf(s, sorted, OfKind(actions, ActionRetarget)), sorted, OfKind(actions, ActionRetarget),
                 OfKind(actions, ActionObsolete), i) == Ok(cs.ops[i])
  {
    hide OpAt, ContextOf, BatchWithEpic, AllPlaced, ResolveEpicAction, OfKind, DistinctIds, Ascends;
    assert OpIs(s, actions, sorted, i, cs.ops[i]);
  }

  lemma OpCount(s: Setting, actions: seq<Action>, cs: Changeset, epic: Option<Action>, sorted: seq<Action>)
    requires Parts(s, actions, cs, epic, sorted)
    ensures |cs.ops| == |sorted| + |OfKind(actions, ActionRetarget)| + |OfKind(actions, ActionObsolete)|
  {
  }

  lemma SortedParts(s: Setting, actions: seq<Action>, cs: Changeset, epic: Option<Action>, sorted: seq<Action>)
    requires Parts(s, actions, cs, epic, sorted)
    ensures DistinctIds(sorted) && Ascends(LayersOf(sorted, s.planRelevant))
    ensures multiset(sorted) == multiset(BatchWithEpic(epic, actions))
    ensures forall i, d :: 0 <= i < |sorted| && d in sorted[i].deps && d in BatchOf(sorted) ==> d in IdsOf(sorted)[..i]
  {
    hide DistinctIds, Ascends, BatchWithEpic, BatchOf, ResolveEpicAction, OfKind;
  }

  lemma {:induction false} BatchPoints(sorted: seq<Action>, j: nat)
    requires DistinctIds(sorted) && j < |sorted|
    ensures sorted[j].node in BatchOf(sorted) && BatchOf(sorted)[sorted[j].node] == CreateOpId(sorted[j])
  {
    hide CreateOpId, BatchOf;
    var n := |sorted| - 1;
    assert sorted[..n + 1] == sorted;
    BatchNext(sorted, n);
    if j < n {
      assert sorted[j].node != sorted[n].node;
      BatchPoints(sorted[..n], j);
    }
  }

  // ---- what a dependency list holds ----

  ghost predicate SpecOpDep(ctx: Context, a: Action, id: string) {
    exists d :: d in a.deps && d in ctx.batch && ctx.batch[d] == id
  }

  ghost predicate SpecTaskDep(ctx: Context, a: Action, task: string) {
    exists d :: d in a.deps && d !in ctx.batch && d in ctx.setting.fold.lookup
                && IsLive(ctx.setting.fold.lookup[d].status) && ctx.setting.fold.lookup[d].task == task
  }

  lemma ResolvedRefs(ctx: Context, a: Action)
    requires Resolved(a.deps, ctx.batch, ctx.setting.fold).Ok?
    ensures forall id :: OpRef(id) in Resolved(a.deps, ctx.batch, ctx.setting.fold).value <==> SpecOpDep(ctx, a, id)
    ensures forall t :: TaskRef(t) in Resolved(a.deps, ctx.batch, ctx.setting.fold).value <==> SpecTaskDep(ctx, a, t)
  {
    var refs := Resolved(a.deps, ctx.batch, ctx.setting.fold).value;
    forall id
      ensures OpRef(id) in refs <==> SpecOpDep(ctx, a, id)
    {
      ResolvedMember(a.deps, ctx.batch, ctx.setting.fold, OpRef(id));
    }
    forall t
      ensures TaskRef(t) in refs <==> SpecTaskDep(ctx, a, t)
    {
      ResolvedMember(a.deps, ctx.batch, ctx.setting.fold, TaskRef(t));
    }
  }

  lemma RefIds(refs: seq<Ref>)
    ensures forall id :: id in FlatMap(OpRefId(), refs) <==> OpRef(id) in refs
    ensures forall t :: t in FlatMap(TaskRefId(), refs) <==> TaskRef(t) in refs
  {
    forall id
      ensures id in FlatMap(OpRefId(), refs) <==> OpRef(id) in refs
      ensures id in FlatMap(TaskRefId(), refs) <==> TaskRef(id) in refs
    {
      FlatMapMember(OpRefId(), refs, id);
      FlatMapMember(TaskRefId(), refs, id);
    }
  }

  lemma SortMember(index: map<string, nat>, ids: seq<string>)
    ensures forall x :: x in SortBy(FileLeq(index), ids) <==> x in ids
    ensures |SortBy(FileLeq(index), ids)| == |ids|
  {
    var r := SortBy(FileLeq(index), ids);
    assert forall x :: x in r <==> x in multiset(r);
    assert forall x :: x in ids <==> x in multiset(ids);
    assert |multiset(r)| == |r|;
  }

  /** The list holds the spec dependencies, the layer edge and the extra tasks, and nothing else. */
  lemma DepsContents(ctx: Context, a: Action, edge: seq<string>, extra: seq<string>, deps: seq<Ref>)
    requires DepsOf(ctx, a, edge, extra) == Ok(deps)
    ensures forall id :: OpRef(id) in deps <==> SpecOpDep(ctx, a, id) || id in edge
    ensures forall t :: TaskRef(t) in deps <==> SpecTaskDep(ctx, a, t) || t in extra
  {
    hide Dedup;
    var refs := Resolved(a.deps, ctx.batch, ctx.setting.fold).value;
    ResolvedRefs(ctx, a);
    RefIds(refs);
    var ops, tasks := FlatMap(OpRefId(), refs) + edge, FlatMap(TaskRefId(), refs) + extra;
    SortMember(ctx.index, Dedup(ops));
    ArrangeMember(SortBy(FileLeq(ctx.index), Dedup(ops)), SortStrings(Dedup(tasks)));
  }

  lemma ArrangeMember(ops: seq<string>, tasks: seq<string>)
    ensures forall id :: OpRef(id) in OpRefs(ops) + TaskRefs(tasks) <==> id in ops
    ensures forall t :: TaskRef(t) in OpRefs(ops) + TaskRefs(tasks) <==> t in tasks
  {
    var r := OpRefs(ops) + TaskRefs(tasks);
    forall id | id in ops
      ensures OpRef(id) in r
    {
      var k :| 0 <= k < |ops| && ops[k] == id;
      assert r[k] == OpRef(id);
    }
    forall t | t in tasks
      ensures TaskRef(t) in r
    {
      var k :| 0 <= k < |tasks| && tasks[k] == t;
      assert r[|ops| + k] == TaskRef(t);
    }
  }

  // ---- one-pass executability ----

  lemma PlacedParts(s: Setting, actions: seq<Action>, cs: Changeset, epic: Option<Action>, sorted: seq<Action>)
    requires Parts(s, actions, cs, epic, sorted)
    ensures AllPlaced(sorted, s.planRelevant)
  {
  }

  lemma CreateOpShape(ctx: Context, a: Action, i: nat, op: Op)
    requires i < |ctx.opIds| && i < |ctx.edges| && CreateOp(ctx, a, i) == Ok(op)
    ensures op.kind == Create && op.opId == ctx.opIds[i] && op.node == a.node && op.nodeKind == CreateKind(a)
  {
    hide DepsOf, LabelFor, ResolveParent, IsCleanup, TitleFor;
  }

  /** The i-th create is what the i-th sorted action composes to. */
  lemma CreateIs(s: Setting, actions: seq<Action>, cs: Changeset, epic: Option<Action>, sorted: seq<Action>, i: nat)
    requires Parts(s, actions, cs, epic, sorted) && i < |sorted|
    ensures |cs.ops| >= |sorted| && AllPlaced(sorted, s.planRelevant)
    ensures CreateOp(ContextOf(s, sorted, OfKind(actions, ActionRetarget)), sorted[i], i) == Ok(cs.ops[i])
  {
    hide Parts, CreateOp, ContextOf;
    OpCount(s, actions, cs, epic, sorted);
    PlacedParts(s, actions, cs, epic, sorted);
    OpOf(s, actions, cs, epic, sorted, i);
  }

  /** The create at position j answers to its own id. */
  lemma CreateAt(s: Setting, actions: seq<Action>, cs: Changeset, epic: Option<Action>, sorted: seq<Action>, j: nat)
    requires Parts(s, actions, cs, epic, sorted) && j < |sorted|
    ensures |cs.ops| >= |sorted| && cs.ops[j].kind == Create && cs.ops[j].opId == CreateOpId(sorted[j])
    ensures cs.ops[j].node == sorted[j].node && cs.ops[j].nodeKind == CreateKind(sorted[j])
  {
    hide Parts, CreateOp, CreateOpId, CreateKind, BatchOf, FileIndex, EdgesOf, LayersOf;
    CreateIs(s, actions, cs, epic, sorted, j);
    CreateOpShape(ContextOf(s, sorted, OfKind(actions, ActionRetarget)), sorted[j], j, cs.ops[j]);
  }

  lemma EarlierCreate(s: Setting, actions: seq<Action>, cs: Changeset, epic: Option<Action>, sorted: seq<Action>, i: nat, j: nat, id: string)
    requires Parts(s, actions, cs, epic, sorted) && j < |sorted| && j < i < |cs.ops| && id == CreateOpId(sorted[j])
    ensures RefBack(cs.ops, i, OpRef(id))
  {
    CreateAt(s, actions, cs, epic, sorted, j);
  }

  lemma SpecDepBack(s: Setting, actions: seq<Action>, cs: Changeset, epic: Option<Action>, sorted: seq<Action>, i: nat, a: Action, id: string)
    requires Parts(s, actions, cs, epic, sorted) && i < |cs.ops| && (i < |sorted| ==> a == sorted[i])
    requires SpecOpDep(ContextOf(s, sorted, OfKind(actions, ActionRetarget)), a, id)
    ensures RefBack(cs.ops, i, OpRef(id))
  {
    hide CreateOpId, Parts, RefBack, ContextOf;
    SortedParts(s, actions, cs, epic, sorted);
    var j := SpecDepSource(s, actions, cs, epic, sorted, a, id);
    var d := sorted[j].node;
    if i < |sorted| {
      assert d in IdsOf(sorted)[..i];
      var k :| 0 <= k < i && IdsOf(sorted)[..i][k] == d;
      assert k == j;
    }
    EarlierCreate(s, actions, cs, epic, sorted, i, j, id);
  }

  /** A spec dependency on an op comes from a create of the batch. */
  lemma SpecDepSource(s: Setting, actions: seq<Action>, cs: Changeset, epic: Option<Action>, sorted: seq<Action>, a: Action, id: string)
    returns (j: nat)
    requires Parts(s, actions, cs, epic, sorted)
    requires SpecOpDep(ContextOf(s, sorted, OfKind(actions, ActionRetarget)), a, id)
    ensures j < |sorted| && sorted[j].node in a.deps && sorted[j].node in BatchOf(sorted) && id == CreateOpId(sorted[j])
  {
    SortedParts(s, actions, cs, epic, sorted);
    var d :| d in a.deps && d in BatchOf(sorted) && BatchOf(sorted)[d] == id;
    var b :| b in sorted && b.node == d;
    j :| 0 <= j < |sorted| && sorted[j] == b;
    BatchPoints(sorted, j);
  }

  lemma FeedsBelow(layers: seq<nat>, j: nat, i: nat)
    requires j < |layers| && i < |layers| && Ascends(layers) && layers[j] < layers[i]
    ensures j < i
  {
  }

  lemma FeederBelow(layers: seq<nat>, j: nat, i: nat)
    requires j < |layers| && i < |layers| && FeedsLayer(layers, j, i)
    ensures layers[j] < layers[i]
  {
  }

  lemma EdgeBack(s: Setting, actions: seq<Action>, cs: Changeset, epic: Option<Action>, sorted: seq<Action>, i: nat, id: string)
    requires Parts(s, actions, cs, epic, sorted) && i < |sorted|
    requires id in ContextOf(s, sorted, OfKind(actions, ActionRetarget)).edges[i]
    ensures |cs.ops| >= |sorted| && RefBack(cs.ops, i, OpRef(id))
  {
    hide Parts, CreateOpId, LayerFor, FeedsLayer, LayerEdge, RefBack;
    PlacedParts(s, actions, cs, epic, sorted);
    var layers, opIds := LayersOf(sorted, s.planRelevant), OpIdsOf(sorted);
    SortedParts(s, actions, cs, epic, sorted);
    CreateAt(s, actions, cs, epic, sorted, i);
    EdgeSource(layers, opIds, i, |layers|, id);
    var j :| 0 <= j < |layers| && FeedsLayer(layers, j, i) && id == opIds[j];
    FeederBelow(layers, j, i);
    FeedsBelow(layers, j, i);
    EarlierCreate(s, actions, cs, epic, sorted, i, j, id);
  }

  lemma EpicSource(s: Setting, actions: seq<Action>, cs: Changeset, epic: Option<Action>, sorted: seq<Action>) returns (j: nat)
    requires Parts(s, actions, cs, epic, sorted) && epic.Some?
    ensures j < |sorted| && sorted[j] == epic.value && LayerFor(sorted[j], s.planRelevant) == Some(0)
    ensures BatchOf(sorted)[s.proposal] == CreateOpId(sorted[j])
  {
    hide SortOutcome, Composed, CreateOpId, DistinctIds;
    SortedParts(s, actions, cs, epic, sorted);
    assert epic.value in multiset(BatchWithEpic(epic, actions)) by {
      assert BatchWithEpic(epic, actions)[0] == epic.value;
    }
    assert epic.value in multiset(sorted);
    j :| 0 <= j < |sorted| && sorted[j] == epic.value;
    BatchPoints(sorted, j);
  }

  lemma NonEpicLayer(a: Action, planRelevant: seq<string>)
    requires a.nodeType != KIND_PROPOSAL_EPIC && LayerFor(a, planRelevant).Some?
    ensures LayerFor(a, planRelevant).value > 0
  {
  }

  lemma ParentBack(s: Setting, actions: seq<Action>, cs: Changeset, epic: Option<Action>, sorted: seq<Action>, i: nat, r: Ref)
    requires Parts(s, actions, cs, epic, sorted) && i < |sorted| && sorted[i].nodeType != KIND_PROPOSAL_EPIC
    requires ResolveParent(s.proposal, s.fold, s.registration, BatchOf(sorted)) == Ok(r)
    ensures |cs.ops| >= |sorted| && RefBack(cs.ops, i, r)
  {
    hide CreateOpId, Composed, SortOutcome, RefBack, BatchWithEpic, DistinctIds;
    SortedParts(s, actions, cs, epic, sorted);
    CreateAt(s, actions, cs, epic, sorted, i);
    if r.OpRef? {
      var j := EpicSource(s, actions, cs, epic, sorted);
      var layers := LayersOf(sorted, s.planRelevant);
      NonEpicLayer(sorted[i], s.planRelevant);
      FeedsBelow(layers, j, i);
      EarlierCreate(s, actions, cs, epic, sorted, i, j, r.id);
    } else {
      TaskBack(cs.ops, i, r);
    }
  }

  lemma CreateRefsBack(s: Setting, actions: seq<Action>, cs: Changeset, epic: Option<Action>, sorted: seq<Action>, i: nat, r: Ref)
    requires Parts(s, actions, cs, epic, sorted) && i < |sorted| && i < |cs.ops| && Refers(cs.ops[i], r)
    ensures RefBack(cs.ops, i, r)
  {
    hide SortOutcome, Composed, DepsOf, SpecOpDep, SpecTaskDep, RefBack, LabelFor, ResolveParent, CreateOpId;
    var ctx := ContextOf(s, sorted, OfKind(actions, ActionRetarget));
    var a := sorted[i];
    OpOf(s, actions, cs, epic, sorted, i);
    if a.nodeType != KIND_PROPOSAL_EPIC {
      if r in cs.ops[i].deps {
        var extra := if IsCleanup(a) then ctx.targets else [];
        DepsContents(ctx, a, ctx.edges[i], extra, cs.ops[i].deps);
        if r.OpRef? {
          if r.id in ctx.edges[i] {
            EdgeBack(s, actions, cs, epic, sorted, i, r.id);
          } else {
            SpecDepBack(s, actions, cs, epic, sorted, i, a, r.id);
          }
        } else {
          TaskBack(cs.ops, i, r);
        }
      } else {
        ParentBack(s, actions, cs, epic, sorted, i, r);
      }
    }
  }

  lemma TaskBack(ops: seq<Op>, i: nat, r: Ref)
    requires i < |ops| && r.TaskRef?
    ensures RefBack(ops, i, r)
  {
  }

  lemma LaterRefsBack(s: Setting, actions: seq<Action>, cs: Changeset, epic: Option<Action>, sorted: seq<Action>, i: nat, r: Ref)
    requires Parts(s, actions, cs, epic, sorted) && |sorted| <= i < |cs.ops| && Refers(cs.ops[i], r)
    ensures RefBack(cs.ops, i, r)
  {
    hide SortOutcome, Composed, DepsOf, SpecOpDep, SpecTaskDep, RefBack, LabelFor;
    var retargets := OfKind(actions, ActionRetarget);
    OpOf(s, actions, cs, epic, sorted, i);
    if i < |sorted| + |retargets| {
      var ctx, a := ContextOf(s, sorted, retargets), retargets[i - |sorted|];
      DepsContents(ctx, a, [], [], cs.ops[i].deps);
      if r.OpRef? {
        SpecDepBack(s, actions, cs, epic, sorted, i, a, r.id);
      } else {
        TaskBack(cs.ops, i, r);
      }
    }
  }

  /** Every reference of every operation a build returns points strictly back, so one forward pass applies it. */
  lemma OnePass(s: Setting, actions: seq<Action>, cs: Changeset, tasks: seq<string>)
    requires Built(s, actions, cs) && |tasks| == |cs.ops|
    ensures Executable(cs.ops) && ForwardPass(cs.ops, tasks, |cs.ops|).Some?
  {
    hide Built, RefBack, Refers;
    var epic, sorted := BuiltParts(s, actions, cs);
    forall i, r | 0 <= i < |cs.ops| && Refers(cs.ops[i], r)
      ensures RefBack(cs.ops, i, r)
    {
      if i < |sorted| {
        CreateRefsBack(s, actions, cs, epic, sorted, i, r);
      } else {
        LaterRefsBack(s, actions, cs, epic, sorted, i, r);
      }
    }
    PassSucceeds(cs.ops, tasks, |cs.ops|);
  }

  // ---- the layer barrier ----

  ghost predicate DependsDirectly(ops: seq<Op>, i: nat, j: nat)
    requires i < |ops| && j < |ops|
  {
    OpRef(ops[j].opId) in ops[i].deps
  }

  /** Operation i waits for operation j, directly or through others in between. */
  ghost predicate Depends(ops: seq<Op>, i: nat, j: nat)
    requires i < |ops| && j < |ops|
    decreases i
  {
    DependsDirectly(ops, i, j) || exists k :: 0 <= k < i && DependsDirectly(ops, i, k) && Depends(ops, k, j)
  }

  /** The layer edge of a create is among its dependencies. */
  lemma EdgeInDeps(s: Setting, actions: seq<Action>, cs: Changeset, epic: Option<Action>, sorted: seq<Action>, i: nat, id: string)
    requires Parts(s, actions, cs, epic, sorted) && i < |sorted| && sorted[i].nodeType != KIND_PROPOSAL_EPIC
    requires id in ContextOf(s, sorted, OfKind(actions, ActionRetarget)).edges[i]
    ensures |cs.ops| >= |sorted| && OpRef(id) in cs.ops[i].deps
  {
    hide Parts, DepsOf, SpecOpDep, SpecTaskDep, LabelFor, ResolveParent, IsCleanup;
    PlacedParts(s, actions, cs, epic, sorted);
    var ctx := ContextOf(s, sorted, OfKind(actions, ActionRetarget));
    CreateIs(s, actions, cs, epic, sorted, i);
    DepsContents(ctx, sorted[i], ctx.edges[i], if IsCleanup(sorted[i]) then ctx.targets else [], cs.ops[i].deps);
  }

  lemma FedDirectly(s: Setting, actions: seq<Action>, cs: Changeset, epic: Option<Action>, sorted: seq<Action>, i: nat, k: nat)
    requires Parts(s, actions, cs, epic, sorted) && i < |sorted| && k < |sorted|
    requires FeedsLayer(LayersOf(sorted, s.planRelevant), k, i)
    ensures |cs.ops| >= |sorted| && k < i && DependsDirectly(cs.ops, i, k)
  {
    hide Parts, LayerFor, LayerEdge, CreateOpId, FeedsLayer;
    PlacedParts(s, actions, cs, epic, sorted);
    var layers, opIds := LayersOf(sorted, s.planRelevant), OpIdsOf(sorted);
    SortedParts(s, actions, cs, epic, sorted);
    EdgeMember(layers, opIds, i, k, |layers|);
    FeederBelow(layers, k, i);
    FeedsBelow(layers, k, i);
    AboveEpic(sorted[i], s.planRelevant);
    EdgeInDeps(s, actions, cs, epic, sorted, i, opIds[k]);
    CreateAt(s, actions, cs, epic, sorted, k);
  }

  lemma AboveEpic(a: Action, planRelevant: seq<string>)
    requires LayerFor(a, planRelevant).Some? && LayerFor(a, planRelevant).value > 0
    ensures a.nodeType != KIND_PROPOSAL_EPIC
  {
  }

  lemma {:induction false} BarrierAt(s: Setting, actions: seq<Action>, cs: Changeset, epic: Option<Action>, sorted: seq<Action>, i: nat, j: nat)
    requires Parts(s, actions, cs, epic, sorted) && i < |sorted| && j < |sorted|
    requires 0 < LayersOf(sorted, s.planRelevant)[j] < LayersOf(sorted, s.planRelevant)[i]
    ensures |cs.ops| >= |sorted| && Depends(cs.ops, i, j)
    decreases i
  {
    hide Parts, LayerFor, DependsDirectly, FeedsLayer;
    PlacedParts(s, actions, cs, epic, sorted);
    var layers := LayersOf(sorted, s.planRelevant);
    var k := FeederAbove(layers, j, i);
    FeederBelow(layers, k, i);
    FedDirectly(s, actions, cs, epic, sorted, i, k);
    if layers[j] == layers[k] {
      SameLayerFeeds(layers, k, j, i);
      FedDirectly(s, actions, cs, epic, sorted, i, j);
    } else {
      BarrierAt(s, actions, cs, epic, sorted, k, j);
    }
  }

  lemma SameLayerFeeds(layers: seq<nat>, k: nat, j: nat, i: nat)
    requires i < |layers| && j < |layers| && k < |layers| && FeedsLayer(layers, k, i) && layers[j] == layers[k]
    ensures FeedsLayer(layers, j, i)
  {
  }

  /** Both creates have a layer, the first a lower one that is not the epic's. */
  ghost predicate LayerBelow(s: Setting, b: Action, a: Action) {
    LayerFor(b, s.planRelevant).Some? && LayerFor(a, s.planRelevant).Some?
    && 0 < LayerFor(b, s.planRelevant).value < LayerFor(a, s.planRelevant).value
  }

  predicate IsCleanupCreate(a: Action) {
    IsCleanup(a) && a.nodeType != KIND_PROPOSAL_EPIC
  }

  /**
   Layer barrier: a create waits, directly or through others, for every create of every
   lower layer but the epic's; and a cleanup also for the task of every retarget.
   */
  lemma LayerBarrier(s: Setting, actions: seq<Action>, cs: Changeset) returns (sorted: seq<Action>)
    requires Built(s, actions, cs)
    ensures |sorted| <= |cs.ops| && AllPlaced(sorted, s.planRelevant)
    ensures forall a :: a in actions && a.kind == ActionCreate ==> a in sorted
    ensures forall i :: 0 <= i < |sorted| ==> cs.ops[i].opId == CreateOpId(sorted[i])
    ensures forall i, j :: 0 <= i < |sorted| && 0 <= j < |sorted| && LayerBelow(s, sorted[j], sorted[i]) ==> Depends(cs.ops, i, j)
    ensures forall i, r :: 0 <= i < |sorted| && IsCleanupCreate(sorted[i]) && r in actions && r.kind == ActionRetarget ==>
              TaskRef(r.task) in cs.ops[i].deps
  {
    hide Parts, Built, Depends, LayerFor, CreateOpId, IsCleanup;
    var epic;
    epic, sorted := BuiltParts(s, actions, cs);
    PlacedParts(s, actions, cs, epic, sorted);
    OpCount(s, actions, cs, epic, sorted);
    CreatesSorted(s, actions, cs, epic, sorted);
    forall i | 0 <= i < |sorted|
      ensures cs.ops[i].opId == CreateOpId(sorted[i])
    {
      CreateAt(s, actions, cs, epic, sorted, i);
    }
    forall i, j | 0 <= i < |sorted| && 0 <= j < |sorted| && LayerBelow(s, sorted[j], sorted[i])
      ensures Depends(cs.ops, i, j)
    {
      BarrierAt(s, actions, cs, epic, sorted, i, j);
    }
    forall i, r | 0 <= i < |sorted| && IsCleanupCreate(sorted[i]) && r in actions && r.kind == ActionRetarget
      ensures TaskRef(r.task) in cs.ops[i].deps
    {
      CleanupWaits(s, actions, cs, epic, sorted, i, r);
    }
  }

  lemma CreatesSorted(s: Setting, actions: seq<Action>, cs: Changeset, epic: Option<Action>, sorted: seq<Action>)
    requires Parts(s, actions, cs, epic, sorted)
    ensures forall a :: a in actions && a.kind == ActionCreate ==> a in sorted
  {
    hide Composed, SortOutcome;
    SortedParts(s, actions, cs, epic, sorted);
    forall a | a in actions && a.kind == ActionCreate
      ensures a in sorted
    {
      assert a in OfKind(actions, ActionCreate);
      assert a in BatchWithEpic(epic, actions);
      assert a in multiset(sorted);
    }
  }

  lemma CleanupWaits(s: Setting, actions: seq<Action>, cs: Changeset, epic: Option<Action>, sorted: seq<Action>, i: nat, r: Action)
    requires Parts(s, actions, cs, epic, sorted) && i < |sorted| && IsCleanup(sorted[i]) && sorted[i].nodeType != KIND_PROPOSAL_EPIC
    requires r in actions && r.kind == ActionRetarget
    ensures |cs.ops| >= |sorted| && TaskRef(r.task) in cs.ops[i].deps
  {
    hide Parts, DepsOf, SpecOpDep, SpecTaskDep, LabelFor, ResolveParent;
    PlacedParts(s, actions, cs, epic, sorted);
    var retargets := OfKind(actions, ActionRetarget);
    var ctx := ContextOf(s, sorted, retargets);
    CreateIs(s, actions, cs, epic, sorted, i);
    DepsContents(ctx, sorted[i], ctx.edges[i], ctx.targets, cs.ops[i].deps);
    var k :| 0 <= k < |retargets| && retargets[k] == r;
    assert TasksOf(retargets)[k] == r.task;
  }

  // ---- canonical dependency lists ----

  /** Op x stands before op y in the file. */
  ghost predicate FileBefore(ops: seq<Op>, x: string, y: string) {
    exists p, q :: 0 <= p < q < |ops| && ops[p].opId == x && ops[q].opId == y
  }

  ghost predicate Canonical(ops: seq<Op>, deps: seq<Ref>) {
    forall i, j {:trigger deps[i], deps[j]} :: 0 <= i < j < |deps| ==>
      match (deps[i], deps[j])
      case (OpRef(x), OpRef(y)) => x != y && FileBefore(ops, x, y)
      case (TaskRef(x), TaskRef(y)) => Less(x, y)
      case (OpRef(_), TaskRef(_)) => true
      case (TaskRef(_), OpRef(_)) => false
  }

  lemma FileOrdering(index: map<string, nat>)
    ensures Ordering(FileLeq(index))
  {
  }

  lemma SortKeepsDistinct(index: map<string, nat>, ids: seq<string>)
    requires NoDuplicates(ids)
    ensures NoDuplicates(SortBy(FileLeq(index), ids))
  {
    NoDuplicatesMultiset(ids);
    SortMember(index, ids);
    MultisetNoDuplicates(SortBy(FileLeq(index), ids));
  }

  /** Distinct ids with distinct positions come out strictly by position. */
  lemma SortedByIndex(index: map<string, nat>, ids: seq<string>, i: nat, j: nat)
    requires NoDuplicates(ids) && (forall x :: x in ids ==> x in index)
    requires forall x, y :: x in ids && y in ids && x != y ==> index[x] != index[y]
    requires i < j < |SortBy(FileLeq(index), ids)|
    ensures var r := SortBy(FileLeq(index), ids);
            r[i] != r[j] && r[i] in ids && r[j] in ids && index[r[i]] < index[r[j]]
  {
    hide SortBy;
    FileOrdering(index);
    SortBySorted(FileLeq(index), ids);
    SortKeepsDistinct(index, ids);
    SortMember(index, ids);
    var r := SortBy(FileLeq(index), ids);
    assert r[i] in r && r[j] in r;
    assert FileLeq(index)(r[i], r[j]);
  }

  lemma InFileOrder(opIds: seq<string>, ids: seq<string>, i: nat, j: nat)
    requires NoDuplicates(ids) && (forall x :: x in ids ==> x in opIds)
    requires i < j < |SortBy(FileLeq(FileIndex(opIds)), ids)|
    ensures var r := SortBy(FileLeq(FileIndex(opIds)), ids);
            r[i] != r[j] && r[i] in ids && r[j] in ids && FileIndex(opIds)[r[i]] < FileIndex(opIds)[r[j]]
  {
    hide FileIndex, SortBy, FileLeq, NoDuplicates;
    SortedByIndex(FileIndex(opIds), ids, i, j);
  }

  /** An arranged list of known op ids is canonical. */
  lemma ArrangeCanonical(all: seq<Op>, opIds: seq<string>, ops: seq<string>, tasks: seq<string>)
    requires |opIds| <= |all| && (forall k :: 0 <= k < |opIds| ==> all[k].opId == opIds[k])
    requires forall x :: x in ops ==> x in opIds
    ensures Canonical(all, Arrange(FileIndex(opIds), ops, tasks))
  {
    hide FileIndex, Dedup;
    var index := FileIndex(opIds);
    var sortedOps, sortedTasks := SortBy(FileLeq(index), Dedup(ops)), SortStrings(Dedup(tasks));
    DedupDistinct(ops);
    DedupDistinct(tasks);
    SortStringsAscending(Dedup(tasks));
    forall i, j | 0 <= i < j < |sortedOps|
      ensures sortedOps[i] != sortedOps[j] && FileBefore(all, sortedOps[i], sortedOps[j])
    {
      InFileOrder(opIds, Dedup(ops), i, j);
    }
    ArrangedPairs(all, sortedOps, sortedTasks);
  }

  lemma ArrangedPairs(all: seq<Op>, ops: seq<string>, tasks: seq<string>)
    requires Ascending(tasks)
    requires forall i, j :: 0 <= i < j < |ops| ==> ops[i] != ops[j] && FileBefore(all, ops[i], ops[j])
    ensures Canonical(all, OpRefs(ops) + TaskRefs(tasks))
  {
    hide FileBefore;
    var deps := OpRefs(ops) + TaskRefs(tasks);
    forall i, j | 0 <= i < j < |deps|
      ensures match (deps[i], deps[j])
              case (OpRef(x), OpRef(y)) => x != y && FileBefore(all, x, y)
              case (TaskRef(x), TaskRef(y)) => Less(x, y)
              case (OpRef(_), TaskRef(_)) => true
              case (TaskRef(_), OpRef(_)) => false
    {
      assert deps[i] == if i < |ops| then OpRef(ops[i]) else TaskRef(tasks[i - |ops|]);
      assert deps[j] == if j < |ops| then OpRef(ops[j]) else TaskRef(tasks[j - |ops|]);
    }
  }

  lemma DepsCanonicalAt(s: Setting, actions: seq<Action>, cs: Changeset, epic: Option<Action>, sorted: seq<Action>,
                        a: Action, edge: seq<string>, extra: seq<string>, deps: seq<Ref>)
    requires Parts(s, actions, cs, epic, sorted)
    requires forall id :: id in edge ==> id in OpIdsOf(sorted)
    requires DepsOf(ContextOf(s, sorted, OfKind(actions, ActionRetarget)), a, edge, extra) == Ok(deps)
    ensures Canonical(cs.ops, deps)
  {
    hide Parts, Canonical, Arrange, CreateOpId, SpecOpDep, SpecTaskDep;
    PlacedParts(s, actions, cs, epic, sorted);
    OpCount(s, actions, cs, epic, sorted);
    var ctx, opIds := ContextOf(s, sorted, OfKind(actions, ActionRetarget)), OpIdsOf(sorted);
    var refs := Resolved(a.deps, ctx.batch, ctx.setting.fold).value;
    ResolvedRefs(ctx, a);
    RefIds(refs);
    forall k | 0 <= k < |opIds|
      ensures cs.ops[k].opId == opIds[k]
    {
      CreateAt(s, actions, cs, epic, sorted, k);
    }
    var ops := FlatMap(OpRefId(), refs) + edge;
    forall x | x in ops
      ensures x in opIds
    {
      if x !in edge {
        assert SpecOpDep(ctx, a, x);
        var j := SpecDepSource(s, actions, cs, epic, sorted, a, x);
        assert opIds[j] == x;
      }
    }
    ArrangeCanonical(cs.ops, opIds, ops, FlatMap(TaskRefId(), refs) + extra);
  }

  lemma CreateDepsCanonical(s: Setting, actions: seq<Action>, cs: Changeset, epic: Option<Action>, sorted: seq<Action>, i: nat)
    requires Parts(s, actions, cs, epic, sorted) && i < |sorted| && i < |cs.ops|
    ensures Canonical(cs.ops, cs.ops[i].deps)
  {
    hide Parts, DepsOf, LabelFor, ResolveParent, CreateOpId, IsCleanup, Canonical, TitleFor, BatchOf, FileIndex;
    CreateIs(s, actions, cs, epic, sorted, i);
    var ctx := ContextOf(s, sorted, OfKind(actions, ActionRetarget));
    EdgeKnown(LayersOf(sorted, s.planRelevant), OpIdsOf(sorted), i);
    NoDepsCanonical(cs.ops);
    if sorted[i].nodeType != KIND_PROPOSAL_EPIC {
      DepsCanonicalAt(s, actions, cs, epic, sorted, sorted[i], ctx.edges[i],
                      if IsCleanup(sorted[i]) then ctx.targets else [], cs.ops[i].deps);
    }
  }

  lemma LaterDepsCanonical(s: Setting, actions: seq<Action>, cs: Changeset, epic: Option<Action>, sorted: seq<Action>, i: nat)
    requires Parts(s, actions, cs, epic, sorted) && |sorted| <= i < |cs.ops|
    ensures Canonical(cs.ops, cs.ops[i].deps)
  {
    hide Parts, DepsOf, LabelFor, CreateOp, Canonical, ContextOf;
    PlacedParts(s, actions, cs, epic, sorted);
    OpOf(s, actions, cs, epic, sorted, i);
    NoDepsCanonical(cs.ops);
    var retargets := OfKind(actions, ActionRetarget);
    if i < |sorted| + |retargets| {
      DepsCanonicalAt(s, actions, cs, epic, sorted, retargets[i - |sorted|], [], [], cs.ops[i].deps);
    }
  }

  /** Every dependency list is free of duplicates: op refs in file order, then task refs in id order. */
  lemma DepsCanonical(s: Setting, actions: seq<Action>, cs: Changeset, i: nat)
    requires Built(s, actions, cs) && i < |cs.ops|
    ensures Canonical(cs.ops, cs.ops[i].deps)
  {
    hide Parts, Built, Canonical;
    var epic, sorted := BuiltParts(s, actions, cs);
    if i < |sorted| {
      CreateDepsCanonical(s, actions, cs, epic, sorted, i);
    } else {
      LaterDepsCanonical(s, actions, cs, epic, sorted, i);
    }
  }

  lemma NoDepsCanonical(ops: seq<Op>)
    ensures Canonical(ops, [])
  {
  }

  lemma EdgeKnown(layers: seq<nat>, opIds: seq<string>, i: nat)
    requires |layers| == |opIds| && i < |layers|
    ensures forall id :: id in EdgesOf(layers, opIds)[i] ==> id in opIds
  {
    forall id | id in EdgesOf(layers, opIds)[i]
      ensures id in opIds
    {
      EdgeSource(layers, opIds, i, |layers|, id);
    }
  }

  // ---- op ids ----

  /** What the schemas and the classifier keep to: type names without a dash, one retarget per node, one close per task. */
  ghost predicate Keyed(actions: seq<Action>) {
    && (forall a :: a in actions ==> '-' !in a.nodeType)
    && (forall a :: a in actions && a.kind == ActionCreate ==> a.nodeType != "retarget" && a.nodeType != "close")
    && (forall i, j :: 0 <= i < j < |actions| && actions[i].kind == ActionRetarget && actions[j].kind == ActionRetarget ==>
          actions[i].node != actions[j].node)
    && (forall i, j :: 0 <= i < j < |actions| && actions[i].kind == ActionObsolete && actions[j].kind == ActionObsolete ==>
          actions[i].task != actions[j].task)
  }

  lemma KeySplit(k: string, n: string, l: string, m: string)
    requires '-' !in k && '-' !in l
    ensures "op-" + k + "-" + n == "op-" + l + "-" + m ==> k == l && n == m
  {
    var x, y := "op-" + k + "-" + n, "op-" + l + "-" + m;
    assert x[3 + |k|] == '-' && y[3 + |l|] == '-';
    assert |k| < |l| ==> y[3 + |k|] == l[|k|];
    assert |l| < |k| ==> x[3 + |l|] == k[|l|];
    assert x[3..3 + |k|] == k && y[3..3 + |l|] == l;
    assert x[4 + |k|..] == n && y[4 + |l|..] == m;
  }

  /** The kind and key an action's op id is made of. */
  function KeyPart(a: Action): (string, string) {
    match a.kind
    case ActionCreate => (CreateKind(a), a.node)
    case ActionRetarget => ("retarget", a.node)
    case ActionObsolete => ("close", a.task)
  }

  function OpIdFor(a: Action): string {
    "op-" + KeyPart(a).0 + "-" + KeyPart(a).1
  }

  /** The action behind the i-th operation. */
  function ActionAt(sorted: seq<Action>, retargets: seq<Action>, obsoletes: seq<Action>, i: nat): Action
    requires i < |sorted| + |retargets| + |obsoletes|
  {
    if i < |sorted| then sorted[i]
    else if i < |sorted| + |retargets| then retargets[i - |sorted|]
    else obsoletes[i - |sorted| - |retargets|]
  }

  lemma RetargetShape(ctx: Context, a: Action, op: Op)
    requires RetargetOp(ctx, a) == Ok(op)
    ensures op.opId == RetargetOpId(a)
  {
    hide DepsOf, LabelFor;
  }

  lemma LaterOpId(s: Setting, actions: seq<Action>, cs: Changeset, epic: Option<Action>, sorted: seq<Action>, i: nat)
    requires Parts(s, actions, cs, epic, sorted) && |sorted| <= i < |cs.ops|
    ensures |cs.ops| == |sorted| + |OfKind(actions, ActionRetarget)| + |OfKind(actions, ActionObsolete)|
    ensures cs.ops[i].opId == OpIdFor(ActionAt(sorted, OfKind(actions, ActionRetarget), OfKind(actions, ActionObsolete), i))
  {
    hide Parts, RetargetOp, CreateOp, ContextOf, CreateKind;
    OpCount(s, actions, cs, epic, sorted);
    PlacedParts(s, actions, cs, epic, sorted);
    OpOf(s, actions, cs, epic, sorted, i);
    var retargets := OfKind(actions, ActionRetarget);
    if i < |sorted| + |retargets| {
      assert retargets[i - |sorted|] in retargets;
      RetargetShape(ContextOf(s, sorted, retargets), retargets[i - |sorted|], cs.ops[i]);
    } else {
      assert OfKind(actions, ActionObsolete)[i - |sorted| - |retargets|] in OfKind(actions, ActionObsolete);
    }
  }

  lemma OpIdIs(s: Setting, actions: seq<Action>, cs: Changeset, epic: Option<Action>, sorted: seq<Action>, i: nat)
    requires Parts(s, actions, cs, epic, sorted) && i < |cs.ops|
    ensures |cs.ops| == |sorted| + |OfKind(actions, ActionRetarget)| + |OfKind(actions, ActionObsolete)|
    ensures cs.ops[i].opId == OpIdFor(ActionAt(sorted, OfKind(actions, ActionRetarget), OfKind(actions, ActionObsolete), i))
  {
    hide Parts, CreateKind;
    OpCount(s, actions, cs, epic, sorted);
    if i < |sorted| {
      CreateAt(s, actions, cs, epic, sorted, i);
      SortedCreates(s, actions, cs, epic, sorted, i);
    } else {
      LaterOpId(s, actions, cs, epic, sorted, i);
    }
  }

  lemma SortedCreates(s: Setting, actions: seq<Action>, cs: Changeset, epic: Option<Action>, sorted: seq<Action>, i: nat)
    requires Parts(s, actions, cs, epic, sorted) && i < |sorted|
    ensures sorted[i].kind == ActionCreate && (sorted[i] in actions || sorted[i].nodeType == KIND_PROPOSAL_EPIC)
  {
    hide SortOutcome, Composed;
    SortedParts(s, actions, cs, epic, sorted);
    assert sorted[i] in multiset(BatchWithEpic(epic, actions));
  }

  lemma OfKindNext(actions: seq<Action>, kind: ActionType)
    requires OfKind(actions, kind) != []
    ensures actions != []
    ensures var n := |actions| - 1;
            OfKind(actions, kind) == OfKind(actions[..n], kind) + if actions[n].kind == kind then [actions[n]] else []
  {
  }

  lemma {:induction false} OfKindOrder(actions: seq<Action>, kind: ActionType, i: nat, j: nat) returns (p: nat, q: nat)
    requires i < j < |OfKind(actions, kind)|
    ensures p < q < |actions| && actions[p] == OfKind(actions, kind)[i] && actions[q] == OfKind(actions, kind)[j]
  {
    var init, last := actions[..|actions| - 1], actions[|actions| - 1];
    OfKindNext(actions, kind);
    hide OfKind;
    if j < |OfKind(init, kind)| {
      p, q := OfKindOrder(init, kind, i, j);
    } else {
      q := |actions| - 1;
      assert OfKind(init, kind)[i] in init;
      p :| 0 <= p < |init| && init[p] == OfKind(init, kind)[i];
    }
  }

  predicate PlainKey(a: Action) {
    '-' !in KeyPart(a).0 && (a.kind == ActionCreate ==> KeyPart(a).0 != "retarget" && KeyPart(a).0 != "close")
  }

  lemma PlainKeys(s: Setting, actions: seq<Action>, cs: Changeset, epic: Option<Action>, sorted: seq<Action>, i: nat)
    requires Parts(s, actions, cs, epic, sorted) && Keyed(actions) && i < |cs.ops|
    requires |cs.ops| == |sorted| + |OfKind(actions, ActionRetarget)| + |OfKind(actions, ActionObsolete)|
    ensures var a := ActionAt(sorted, OfKind(actions, ActionRetarget), OfKind(actions, ActionObsolete), i);
            PlainKey(a) && a.kind == if i < |sorted| then ActionCreate
                                     else if i < |sorted| + |OfKind(actions, ActionRetarget)| then ActionRetarget else ActionObsolete
  {
    hide Parts;
    var a := ActionAt(sorted, OfKind(actions, ActionRetarget), OfKind(actions, ActionObsolete), i);
    if i < |sorted| {
      SortedCreates(s, actions, cs, epic, sorted, i);
    } else {
      assert a in OfKind(actions, ActionRetarget) || a in OfKind(actions, ActionObsolete);
    }
  }

  /** Two different operations of one kind have different keys. */
  lemma KeysDiffer(s: Setting, actions: seq<Action>, cs: Changeset, epic: Option<Action>, sorted: seq<Action>, i: nat, j: nat)
    requires Parts(s, actions, cs, epic, sorted) && Keyed(actions) && i < j < |cs.ops|
    requires |cs.ops| == |sorted| + |OfKind(actions, ActionRetarget)| + |OfKind(actions, ActionObsolete)|
    ensures var x, y := ActionAt(sorted, OfKind(actions, ActionRetarget), OfKind(actions, ActionObsolete), i),
                        ActionAt(sorted, OfKind(actions, ActionRetarget), OfKind(actions, ActionObsolete), j);
            x.kind == y.kind ==> KeyPart(x).1 != KeyPart(y).1
  {
    hide Parts, OfKind;
    PlainKeys(s, actions, cs, epic, sorted, i);
    PlainKeys(s, actions, cs, epic, sorted, j);
    var m := |OfKind(actions, ActionRetarget)|;
    if j < |sorted| {
      SortedParts(s, actions, cs, epic, sorted);
    } else if |sorted| <= i && j < |sorted| + m {
      var p, q := OfKindOrder(actions, ActionRetarget, i - |sorted|, j - |sorted|);
    } else if |sorted| + m <= i {
      var p, q := OfKindOrder(actions, ActionObsolete, i - |sorted| - m, j - |sorted| - m);
    }
  }

  /** The op ids of a changeset are distinct. */
  lemma OpIdsDistinct(s: Setting, actions: seq<Action>, cs: Changeset, i: nat, j: nat)
    requires Built(s, actions, cs) && Keyed(actions) && i < j < |cs.ops|
    ensures cs.ops[i].opId != cs.ops[j].opId
  {
    hide Parts, Built, Keyed, KeyPart;
    var epic, sorted := BuiltParts(s, actions, cs);
    var retargets, obsoletes := OfKind(actions, ActionRetarget), OfKind(actions, ActionObsolete);
    OpIdIs(s, actions, cs, epic, sorted, i);
    OpIdIs(s, actions, cs, epic, sorted, j);
    var x, y := ActionAt(sorted, retargets, obsoletes, i), ActionAt(sorted, retargets, obsoletes, j);
    PlainKeys(s, actions, cs, epic, sorted, i);
    PlainKeys(s, actions, cs, epic, sorted, j);
    KeySplit(KeyPart(x).0, KeyPart(x).1, KeyPart(y).0, KeyPart(y).1);
    KeysDiffer(s, actions, cs, epic, sorted, i, j);
    KindsApart(x, y);
  }

  lemma OpIdPrefixed(s: Setting, actions: seq<Action>, cs: Changeset, i: nat)
    requires Built(s, actions, cs) && i < |cs.ops|
    ensures "op-" <= cs.ops[i].opId
  {
    hide Parts, Built, KeyPart;
    var epic, sorted := BuiltParts(s, actions, cs);
    OpIdIs(s, actions, cs, epic, sorted, i);
  }

  /** A changeset carries the run's head, proposal and absorbed entries as they were given. */
  lemma BuiltHead(s: Setting, actions: seq<Action>, cs: Changeset)
    requires Built(s, actions, cs)
    ensures cs.gitHead == s.gitHead && cs.proposal == s.proposal && cs.absorbed == s.absorbed
  {
    hide SortOutcome, Composed;
    var epic := ResolveEpicAction(s.proposal, s.fold, s.registration).value;
    var sr :| SortOutcome(BatchWithEpic(epic, actions), s.planRelevant, sr) && ComposedFrom(s, actions, sr, Ok(cs));
  }

  lemma KindsApart(x: Action, y: Action)
    requires PlainKey(x) && PlainKey(y)
    ensures KeyPart(x).0 == KeyPart(y).0 ==> x.kind == y.kind
  {
  }

  // ---- determinism ----

  lemma SameRefusal(actions: seq<Action>, planRelevant: seq<string>, d: SortError, e: SortError)
    requires FirstUnplaced(actions, planRelevant, d) && FirstUnplaced(actions, planRelevant, e)
    ensures d == e
  {
  }

  /** The same inputs build the same changeset, or fail alike. */
  lemma BuildDeterministic(s: Setting, actions: seq<Action>, p: Result<Changeset, BuildError>, q: Result<Changeset, BuildError>)
    requires match ResolveEpicAction(s.proposal, s.fold, s.registration)
             case Ok(epic) => DistinctIds(BatchWithEpic(epic, actions))
             case Err(_) => true
    requires BuildOutcome(s, actions, p) && BuildOutcome(s, actions, q)
    ensures p == q
  {
    hide Composed, BatchWithEpic, SortOutcome;
    var epic := ResolveEpicAction(s.proposal, s.fold, s.registration);
    if epic.Ok? {
      var batch := BatchWithEpic(epic.value, actions);
      var x :| SortOutcome(batch, s.planRelevant, x) && ComposedFrom(s, actions, x, p);
      var y :| SortOutcome(batch, s.planRelevant, y) && ComposedFrom(s, actions, y, q);
      SortDeterministic(batch, s.planRelevant, x, y);
    }
  }

  lemma SortDeterministic(batch: seq<Action>, planRelevant: seq<string>, x: Result<seq<Action>, SortError>, y: Result<seq<Action>, SortError>)
    requires DistinctIds(batch) && SortOutcome(batch, planRelevant, x) && SortOutcome(batch, planRelevant, y)
    ensures x == y
  {
    if AllPlaced(batch, planRelevant) {
      hide SortOutcome;
      SortCanonicalOutcome(batch, batch, planRelevant, x, y);
    } else {
      SameRefusal(batch, planRelevant, x.error, y.error);
    }
  }
}
