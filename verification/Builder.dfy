/**
 The changeset builder: creates in sorted order, then retargets, then closes, with
 op ids, labels, parents and dependencies filled in.
 */
module Builder {
  import opened Results
  import opened Order
  import opened PlanTypes
  import opened Bags
  import opened Sorter
  import opened LayerEdges
  import opened Resolver
  import opened Labeler

  /** The fixed inputs of one run. */
  datatype Setting = Setting(fold: PlanFold, registration: string, gitHead: string, proposal: string,
                             planRelevant: seq<string>, absorbed: seq<AbsorbedEntry>)

  datatype BuildError = Plan(error: PlanError) | Sorting(refusal: SortError)

  // ---- op ids ----

  function CreateKind(a: Action): string {
    if a.nodeType == KIND_PROPOSAL_EPIC then KIND_PROPOSAL_EPIC
    else if IsCleanup(a) then KIND_CLEANUP
    else a.nodeType
  }

  function CreateOpId(a: Action): string {
    "op-" + CreateKind(a) + "-" + a.node
  }

  function RetargetOpId(a: Action): string {
    "op-retarget-" + a.node
  }

  function CloseOpId(a: Action): string {
    "op-close-" + a.task
  }

  function OpIdsOf(sorted: seq<Action>): (r: seq<string>)
    ensures |r| == |sorted| && forall i :: 0 <= i < |r| ==> r[i] == CreateOpId(sorted[i])
  {
    seq(|sorted|, i requires 0 <= i < |sorted| => CreateOpId(sorted[i]))
  }

  // ---- what the operations are composed from ----

  /** Op id by node, and file position by op id; a later create wins. */
  function BatchOf(sorted: seq<Action>): (m: map<string, string>)
    ensures forall d :: d in m <==> exists a :: a in sorted && a.node == d
  {
    if sorted == [] then
      map[]
    else
      var init, last := sorted[..|sorted| - 1], sorted[|sorted| - 1];
      assert sorted == init + [last];
      BatchOf(init)[last.node := CreateOpId(last)]
  }

  function FileIndex(opIds: seq<string>): (m: map<string, nat>)
    ensures forall id :: id in m <==> id in opIds
    ensures forall id :: id in m ==> m[id] < |opIds| && opIds[m[id]] == id
  {
    if opIds == [] then
      map[]
    else
      var n := |opIds| - 1;
      assert opIds == opIds[..n] + [opIds[n]];
      FileIndex(opIds[..n])[opIds[n] := n]
  }

  /** Everything the operations of one changeset are composed from. */
  datatype Context = Context(setting: Setting, opIds: seq<string>, batch: map<string, string>, index: map<string, nat>,
                             edges: seq<seq<string>>, targets: seq<string>)

  // ---- dependencies ----

  function Dedup(s: seq<string>): (r: seq<string>)
    ensures forall x :: x in r <==> x in s
  {
    if s == [] then
      []
    else
      var init, last := s[..|s| - 1], s[|s| - 1];
      assert s == init + [last];
      if last in Dedup(init) then Dedup(init) else Dedup(init) + [last]
  }

  lemma {:induction false} DedupDistinct(s: seq<string>)
    ensures NoDuplicates(Dedup(s))
  {
    if s != [] {
      DedupDistinct(s[..|s| - 1]);
    }
  }

  function OpRefId(): Ref -> seq<string> {
    (r: Ref) => if r.OpRef? then [r.id] else []
  }

  function TaskRefId(): Ref -> seq<string> {
    (r: Ref) => if r.TaskRef? then [r.id] else []
  }

  function FileLeq(index: map<string, nat>): (string, string) -> bool {
    (x: string, y: string) => IndexOf(index, x) <= IndexOf(index, y)
  }

  function IndexOf(index: map<string, nat>, id: string): nat {
    if id in index then index[id] else 0
  }

  function OpRefs(ids: seq<string>): (r: seq<Ref>)
    ensures |r| == |ids| && forall i :: 0 <= i < |r| ==> r[i] == OpRef(ids[i])
  {
    seq(|ids|, i requires 0 <= i < |ids| => OpRef(ids[i]))
  }

  function TaskRefs(ids: seq<string>): (r: seq<Ref>)
    ensures |r| == |ids| && forall i :: 0 <= i < |r| ==> r[i] == TaskRef(ids[i])
  {
    seq(|ids|, i requires 0 <= i < |ids| => TaskRef(ids[i]))
  }

  /** Ops in file order, then tasks in id order, each once. */
  function Arrange(index: map<string, nat>, ops: seq<string>, tasks: seq<string>): seq<Ref> {
    OpRefs(SortBy(FileLeq(index), Dedup(ops))) + TaskRefs(SortStrings(Dedup(tasks)))
  }

  function DepsOf(ctx: Context, a: Action, edge: seq<string>, extra: seq<string>): Result<seq<Ref>, PlanError> {
    var refs := Resolved(a.deps, ctx.batch, ctx.setting.fold);
    if refs.Err? then
      refs
    else
      Ok(Arrange(ctx.index, FlatMap(OpRefId(), refs.value) + edge, FlatMap(TaskRefId(), refs.value) + extra))
  }

  // ---- the operations ----

  function TitleFor(a: Action): string {
    if a.nodeType == KIND_DATA_FLOW then a.mod + ": data_flow " + a.name
    else if a.nodeType == KIND_TEST_SECTION then a.mod + ": test " + a.name
    else a.mod + ": " + a.name
  }

  function CreateOp(ctx: Context, a: Action, i: nat): Result<Op, PlanError>
    requires i < |ctx.opIds| && i < |ctx.edges|
  {
    var s := ctx.setting;
    var tag := LabelFor(s.fold, s.gitHead, a, ctx.opIds[i], s.registration);
    if tag.Err? then
      Err(tag.error)
    else if a.nodeType == KIND_PROPOSAL_EPIC then
      Ok(Op(ctx.opIds[i], Create, KIND_PROPOSAL_EPIC, a.node, "", Some(tag.value), None, [], a.reason, None, [], ""))
    else
      var parent := ResolveParent(s.proposal, s.fold, s.registration, ctx.batch);
      if parent.Err? then
        Err(parent.error)
      else
        var deps := DepsOf(ctx, a, ctx.edges[i], if IsCleanup(a) then ctx.targets else []);
        if deps.Err? then
          Err(deps.error)
        else
          Ok(Op(ctx.opIds[i], Create, CreateKind(a), a.node, "", Some(tag.value), Some(parent.value), deps.value,
                if IsCleanup(a) then a.reason else TitleFor(a), None, [], ""))
  }

  function RetargetOp(ctx: Context, a: Action): Result<Op, PlanError> {
    var s := ctx.setting;
    var deps := DepsOf(ctx, a, [], []);
    if deps.Err? then
      Err(deps.error)
    else
      var tag := LabelFor(s.fold, s.gitHead, a, RetargetOpId(a), s.registration);
      if tag.Err? then
        Err(tag.error)
      else
        Ok(Op(RetargetOpId(a), Retarget, "", a.node, a.hash, None, None, deps.value, "", Some(TaskRef(a.task)),
              [tag.value], a.reason))
  }

  function CloseOp(a: Action): Op {
    Op(CloseOpId(a), Close, "", "", "", None, None, [], "", Some(TaskRef(a.task)), [], a.reason)
  }

  /** Creates first, then retargets, then closes. */
  function OpAt(ctx: Context, sorted: seq<Action>, retargets: seq<Action>, obsoletes: seq<Action>, n: nat): Result<Op, PlanError>
    requires |ctx.opIds| == |ctx.edges| == |sorted| && n < |sorted| + |retargets| + |obsoletes|
  {
    if n < |sorted| then CreateOp(ctx, sorted[n], n)
    else if n < |sorted| + |retargets| then RetargetOp(ctx, retargets[n - |sorted|])
    else Ok(CloseOp(obsoletes[n - |sorted| - |retargets|]))
  }

  /** The first n operations, or the first error. */
  function OpsUpTo(ctx: Context, sorted: seq<Action>, retargets: seq<Action>, obsoletes: seq<Action>, n: nat): Result<seq<Op>, PlanError>
    requires |ctx.opIds| == |ctx.edges| == |sorted| && n <= |sorted| + |retargets| + |obsoletes|
  {
    if n == 0 then
      Ok([])
    else
      var before := OpsUpTo(ctx, sorted, retargets, obsoletes, n - 1);
      if before.Err? then
        before
      else
        var op := OpAt(ctx, sorted, retargets, obsoletes, n - 1);
        if op.Err? then Err(op.error) else Ok(before.value + [op.value])
  }

  function OfKind(actions: seq<Action>, kind: ActionType): (r: seq<Action>)
    ensures forall a :: a in r <==> a in actions && a.kind == kind
  {
    if actions == [] then
      []
    else
      var init, last := actions[..|actions| - 1], actions[|actions| - 1];
      assert actions == init + [last];
      OfKind(init, kind) + if last.kind == kind then [last] else []
  }

  function TasksOf(actions: seq<Action>): (r: seq<string>)
    ensures |r| == |actions| && forall i :: 0 <= i < |r| ==> r[i] == actions[i].task
  {
    seq(|actions|, i requires 0 <= i < |actions| => actions[i].task)
  }

  /** The batch that is sorted: the epic's create when one is needed, then the creates. */
  function BatchWithEpic(epic: Option<Action>, actions: seq<Action>): seq<Action> {
    (if epic.Some? then [epic.value] else []) + OfKind(actions, ActionCreate)
  }

  function ContextOf(s: Setting, sorted: seq<Action>, retargets: seq<Action>): (ctx: Context)
    requires AllPlaced(sorted, s.planRelevant)
    ensures |ctx.opIds| == |ctx.edges| == |sorted|
  {
    var opIds := OpIdsOf(sorted);
    Context(s, opIds, BatchOf(sorted), FileIndex(opIds), EdgesOf(LayersOf(sorted, s.planRelevant), opIds),
            SortStrings(TasksOf(retargets)))
  }

  function Composed(s: Setting, sorted: seq<Action>, actions: seq<Action>): Result<seq<Op>, PlanError>
    requires AllPlaced(sorted, s.planRelevant)
  {
    var retargets, obsoletes := OfKind(actions, ActionRetarget), OfKind(actions, ActionObsolete);
    OpsUpTo(ContextOf(s, sorted, retargets), sorted, retargets, obsoletes, |sorted| + |retargets| + |obsoletes|)
  }

  /** What one build answers: a changeset or the first error met, never both. */
  ghost predicate BuildOutcome(s: Setting, actions: seq<Action>, r: Result<Changeset, BuildError>) {
    match ResolveEpicAction(s.proposal, s.fold, s.registration)
    case Err(e) => r == Err(Plan(e))
    case Ok(epic) =>
      exists sr :: SortOutcome(BatchWithEpic(epic, actions), s.planRelevant, sr) && ComposedFrom(s, actions, sr, r)
  }

  ghost predicate ComposedFrom(s: Setting, actions: seq<Action>, sr: Result<seq<Action>, SortError>, r: Result<Changeset, BuildError>) {
    match sr
    case Err(e) => r == Err(Sorting(e))
    case Ok(sorted) =>
      AllPlaced(sorted, s.planRelevant) &&
      match Composed(s, sorted, actions)
      case Err(e) => r == Err(Plan(e))
      case Ok(ops) => r == Ok(Changeset(s.gitHead, s.proposal, ops, s.absorbed))
  }

  // ---- composing dependencies ----

  lemma DedupNext(s: seq<string>, x: string)
    ensures Dedup(s + [x]) == if x in Dedup(s) then Dedup(s) else Dedup(s) + [x]
  {
    assert (s + [x])[..|s|] == s;
  }

  ghost predicate Listed(ids: seq<string>, seen: set<string>, all: seq<string>) {
    ids == Dedup(all) && forall x :: x in seen <==> x in all
  }

  method AddId(ids: seq<string>, seen: set<string>, id: string, ghost all: seq<string>) returns (r: seq<string>, now: set<string>)
    requires Listed(ids, seen, all)
    ensures Listed(r, now, all + [id])
  {
    DedupNext(all, id);
    r, now := ids, seen;
    if id !in seen {
      r, now := ids + [id], seen + {id};
    }
  }

  method AddIds(ids: seq<string>, seen: set<string>, more: seq<string>, ghost all: seq<string>) returns (r: seq<string>, now: set<string>)
    requires Listed(ids, seen, all)
    ensures Listed(r, now, all + more)
  {
    hide Listed;
    r, now := ids, seen;
    assert all + more[..0] == all;
    for k := 0 to |more|
      invariant Listed(r, now, all + more[..k])
    {
      assert all + more[..k + 1] == (all + more[..k]) + [more[k]];
      r, now := AddId(r, now, more[k], all + more[..k]);
    }
    assert more[..|more|] == more;
  }

  method SplitRefs(refs: seq<Ref>) returns (ops: seq<string>, opSeen: set<string>, tasks: seq<string>, taskSeen: set<string>)
    ensures Listed(ops, opSeen, FlatMap(OpRefId(), refs)) && Listed(tasks, taskSeen, FlatMap(TaskRefId(), refs))
  {
    ops, opSeen, tasks, taskSeen := [], {}, [], {};
    for k := 0 to |refs|
      invariant Listed(ops, opSeen, FlatMap(OpRefId(), refs[..k])) && Listed(tasks, taskSeen, FlatMap(TaskRefId(), refs[..k]))
    {
      hide Listed;
      FlatMapNext(OpRefId(), refs, k);
      FlatMapNext(TaskRefId(), refs, k);
      ghost var o, t := FlatMap(OpRefId(), refs[..k]), FlatMap(TaskRefId(), refs[..k]);
      assert o + [] == o && t + [] == t;
      match refs[k]
      case OpRef(id) => ops, opSeen := AddId(ops, opSeen, id, o);
      case TaskRef(id) => tasks, taskSeen := AddId(tasks, taskSeen, id, t);
    }
    assert refs[..|refs|] == refs;
  }

  /** Unites resolved refs, layer edges and extra tasks, and arranges them. */
  method ComposeDeps(ctx: Context, a: Action, edge: seq<string>, extra: seq<string>) returns (r: Result<seq<Ref>, PlanError>)
    ensures r == DepsOf(ctx, a, edge, extra)
  {
    var refs := ResolveDeps(a.deps, ctx.batch, ctx.setting.fold);
    if refs.Err? {
      return refs;
    }
    var ops, opSeen, tasks, taskSeen := SplitRefs(refs.value);
    ops, opSeen := AddIds(ops, opSeen, edge, FlatMap(OpRefId(), refs.value));
    tasks, taskSeen := AddIds(tasks, taskSeen, extra, FlatMap(TaskRefId(), refs.value));
    return Ok(OpRefs(SortBy(FileLeq(ctx.index), ops)) + TaskRefs(SortStrings(tasks)));
  }

  // ---- the build ----

  lemma BatchNext(sorted: seq<Action>, i: nat)
    requires i < |sorted|
    ensures BatchOf(sorted[..i + 1]) == BatchOf(sorted[..i])[sorted[i].node := CreateOpId(sorted[i])]
  {
    assert sorted[..i + 1][..i] == sorted[..i];
  }

  lemma FileNext(opIds: seq<string>, i: nat)
    requires i < |opIds|
    ensures FileIndex(opIds[..i + 1]) == FileIndex(opIds[..i])[opIds[i] := i]
  {
    assert opIds[..i + 1][..i] == opIds[..i];
  }

  method OpIdsByNode(sorted: seq<Action>) returns (opIds: seq<string>, batch: map<string, string>)
    ensures opIds == OpIdsOf(sorted) && batch == BatchOf(sorted)
  {
    hide BatchOf, CreateOpId;
    opIds, batch := [], map[];
    assert BatchOf(sorted[..0]) == map[];
    for i := 0 to |sorted|
      invariant opIds == OpIdsOf(sorted)[..i] && batch == BatchOf(sorted[..i])
    {
      BatchNext(sorted, i);
      opIds := opIds + [CreateOpId(sorted[i])];
      batch := batch[sorted[i].node := CreateOpId(sorted[i])];
    }
    assert sorted[..|sorted|] == sorted;
  }

  method FilePositions(opIds: seq<string>) returns (index: map<string, nat>)
    ensures index == FileIndex(opIds)
  {
    hide FileIndex;
    index := map[];
    assert FileIndex(opIds[..0]) == map[];
    for i := 0 to |opIds|
      invariant index == FileIndex(opIds[..i])
    {
      FileNext(opIds, i);
      index := index[opIds[i] := i];
    }
    assert opIds[..|opIds|] == opIds;
  }

  method Split(actions: seq<Action>) returns (creates: seq<Action>, retargets: seq<Action>, obsoletes: seq<Action>)
    ensures creates == OfKind(actions, ActionCreate)
    ensures retargets == OfKind(actions, ActionRetarget) && obsoletes == OfKind(actions, ActionObsolete)
  {
    creates, retargets, obsoletes := [], [], [];
    for k := 0 to |actions|
      invariant creates == OfKind(actions[..k], ActionCreate)
      invariant retargets == OfKind(actions[..k], ActionRetarget) && obsoletes == OfKind(actions[..k], ActionObsolete)
    {
      assert actions[..k + 1][..k] == actions[..k];
      match actions[k].kind
      case ActionCreate => creates := creates + [actions[k]];
      case ActionRetarget => retargets := retargets + [actions[k]];
      case ActionObsolete => obsoletes := obsoletes + [actions[k]];
    }
    assert actions[..|actions|] == actions;
  }

  method BuildCreateOp(ctx: Context, a: Action, i: nat) returns (r: Result<Op, PlanError>)
    requires i < |ctx.opIds| && i < |ctx.edges|
    ensures r == CreateOp(ctx, a, i)
  {
    var s := ctx.setting;
    var tag := LabelFor(s.fold, s.gitHead, a, ctx.opIds[i], s.registration);
    if tag.Err? {
      return Err(tag.error);
    }
    if a.nodeType == KIND_PROPOSAL_EPIC {
      return Ok(Op(ctx.opIds[i], Create, KIND_PROPOSAL_EPIC, a.node, "", Some(tag.value), None, [], a.reason, None, [], ""));
    }
    var parent := ResolveParent(s.proposal, s.fold, s.registration, ctx.batch);
    if parent.Err? {
      return Err(parent.error);
    }
    var deps := ComposeDeps(ctx, a, ctx.edges[i], if IsCleanup(a) then ctx.targets else []);
    if deps.Err? {
      return Err(deps.error);
    }
    var title := if IsCleanup(a) then a.reason else TitleFor(a);
    return Ok(Op(ctx.opIds[i], Create, CreateKind(a), a.node, "", Some(tag.value), Some(parent.value), deps.value, title, None, [], ""));
  }

  method BuildRetargetOp(ctx: Context, a: Action) returns (r: Result<Op, PlanError>)
    ensures r == RetargetOp(ctx, a)
  {
    var s := ctx.setting;
    var deps := ComposeDeps(ctx, a, [], []);
    if deps.Err? {
      return Err(deps.error);
    }
    var tag := LabelFor(s.fold, s.gitHead, a, RetargetOpId(a), s.registration);
    if tag.Err? {
      return Err(tag.error);
    }
    return Ok(Op(RetargetOpId(a), Retarget, "", a.node, a.hash, None, None, deps.value, "", Some(TaskRef(a.task)), [tag.value], a.reason));
  }

  lemma {:induction false} OpsFail(ctx: Context, sorted: seq<Action>, retargets: seq<Action>, obsoletes: seq<Action>, n: nat, total: nat)
    requires |ctx.opIds| == |ctx.edges| == |sorted| && n <= total <= |sorted| + |retargets| + |obsoletes|
    requires OpsUpTo(ctx, sorted, retargets, obsoletes, n).Err?
    ensures OpsUpTo(ctx, sorted, retargets, obsoletes, total) == OpsUpTo(ctx, sorted, retargets, obsoletes, n)
    decreases total - n
  {
    if n < total {
      OpsFail(ctx, sorted, retargets, obsoletes, n + 1, total);
    }
  }

  method BuildOps(ctx: Context, sorted: seq<Action>, retargets: seq<Action>, obsoletes: seq<Action>) returns (r: Result<seq<Op>, PlanError>)
    requires |ctx.opIds| == |ctx.edges| == |sorted|
    ensures r == OpsUpTo(ctx, sorted, retargets, obsoletes, |sorted| + |retargets| + |obsoletes|)
  {
    hide CreateOp, RetargetOp;
    var ops: seq<Op> := [];
    ghost var total := |sorted| + |retargets| + |obsoletes|;
    for i := 0 to |sorted|
      invariant OpsUpTo(ctx, sorted, retargets, obsoletes, i) == Ok(ops)
    {
      var op := BuildCreateOp(ctx, sorted[i], i);
      if op.Err? {
        OpsFail(ctx, sorted, retargets, obsoletes, i + 1, total);
        return Err(op.error);
      }
      ops := ops + [op.value];
    }
    for i := 0 to |retargets|
      invariant OpsUpTo(ctx, sorted, retargets, obsoletes, |sorted| + i) == Ok(ops)
    {
      var op := BuildRetargetOp(ctx, retargets[i]);
      if op.Err? {
        OpsFail(ctx, sorted, retargets, obsoletes, |sorted| + i + 1, total);
        return Err(op.error);
      }
      ops := ops + [op.value];
    }
    for i := 0 to |obsoletes|
      invariant OpsUpTo(ctx, sorted, retargets, obsoletes, |sorted| + |retargets| + i) == Ok(ops)
    {
      ops := ops + [CloseOp(obsoletes[i])];
    }
    return Ok(ops);
  }

  lemma PermutedPlaced(batch: seq<Action>, sorted: seq<Action>, planRelevant: seq<string>)
    requires AllPlaced(batch, planRelevant) && multiset(sorted) == multiset(batch)
    ensures AllPlaced(sorted, planRelevant)
  {
    forall a | a in sorted
      ensures a in batch
    {
      assert a in multiset(sorted);
    }
  }

  /** What a successful sort hands on. */
  lemma SortedFacts(batch: seq<Action>, planRelevant: seq<string>, sorted: seq<Action>)
    requires DistinctIds(batch) && SortOutcome(batch, planRelevant, Ok(sorted))
    ensures AllPlaced(batch, planRelevant) && NoForward(batch, Layers(batch, planRelevant))
    ensures AllPlaced(sorted, planRelevant) && DistinctIds(sorted) && Ascends(LayersOf(sorted, planRelevant))
    ensures multiset(sorted) == multiset(batch)
  {
    PermutedPlaced(batch, sorted, planRelevant);
    SortedLayersAscend(batch, planRelevant, sorted);
  }

  /** The whole composition; any component's error aborts it. */
  method Build(s: Setting, actions: seq<Action>) returns (r: Result<Changeset, BuildError>)
    requires match ResolveEpicAction(s.proposal, s.fold, s.registration)
             case Ok(epic) => DistinctIds(BatchWithEpic(epic, actions))
             case Err(_) => true
    ensures BuildOutcome(s, actions, r)
  {
    hide SortOutcome, Composed;
    var creates, retargets, obsoletes := Split(actions);
    var epic := ResolveEpicAction(s.proposal, s.fold, s.registration);
    if epic.Err? {
      return Err(Plan(epic.error));
    }
    var batch := if epic.value.Some? then [epic.value.value] + creates else creates;
    assert batch == BatchWithEpic(epic.value, actions);
    var sorting := Sort(batch, s.planRelevant);
    if sorting.Err? {
      r := Err(Sorting(sorting.error));
      assert ComposedFrom(s, actions, sorting, r);
      return;
    }
    var sorted := sorting.value;
    SortedFacts(batch, s.planRelevant, sorted);
    r := Compose(s, sorted, actions, retargets, obsoletes);
    assert ComposedFrom(s, actions, sorting, r);
  }

  lemma ComposedIs(s: Setting, actions: seq<Action>, sorted: seq<Action>, ops: Result<seq<Op>, PlanError>, r: Result<Changeset, BuildError>)
    requires AllPlaced(sorted, s.planRelevant)
    requires var retargets, obsoletes := OfKind(actions, ActionRetarget), OfKind(actions, ActionObsolete);
             ops == OpsUpTo(ContextOf(s, sorted, retargets), sorted, retargets, obsoletes, |sorted| + |retargets| + |obsoletes|)
    requires r == if ops.Err? then Err(Plan(ops.error)) else Ok(Changeset(s.gitHead, s.proposal, ops.value, s.absorbed))
    ensures ComposedFrom(s, actions, Ok(sorted), r)
  {
    hide OpsUpTo, ContextOf, OfKind, AllPlaced;
  }

  lemma ContextIs(s: Setting, sorted: seq<Action>, retargets: seq<Action>, ctx: Context)
    requires AllPlaced(sorted, s.planRelevant)
    requires ctx == Context(s, OpIdsOf(sorted), BatchOf(sorted), FileIndex(OpIdsOf(sorted)),
                            EdgesOf(LayersOf(sorted, s.planRelevant), OpIdsOf(sorted)), SortStrings(TasksOf(retargets)))
    ensures ctx == ContextOf(s, sorted, retargets)
  {
    hide FileIndex, BatchOf, EdgesOf, LayersOf, OpIdsOf, TasksOf, SortStrings, AllPlaced;
  }

  method Compose(s: Setting, sorted: seq<Action>, ghost actions: seq<Action>, retargets: seq<Action>, obsoletes: seq<Action>)
    returns (r: Result<Changeset, BuildError>)
    requires AllPlaced(sorted, s.planRelevant) && Ascends(LayersOf(sorted, s.planRelevant))
    requires retargets == OfKind(actions, ActionRetarget) && obsoletes == OfKind(actions, ActionObsolete)
    ensures ComposedFrom(s, actions, Ok(sorted), r)
  {
    hide OpsUpTo, FileIndex, BatchOf, EdgesOf, LayersOf, OpIdsOf, TasksOf, SortStrings, OfKind, AllPlaced, Ascends, ComposedFrom, ContextOf;
    var opIds, batch := OpIdsByNode(sorted);
    var index := FilePositions(opIds);
    var edges := LayerEdgesFor(sorted, opIds, s.planRelevant);
    var ctx := Context(s, opIds, batch, index, edges, SortStrings(TasksOf(retargets)));
    ContextIs(s, sorted, retargets, ctx);
    var ops := BuildOps(ctx, sorted, retargets, obsoletes);
    r := if ops.Err? then Err(Plan(ops.error)) else Ok(Changeset(s.gitHead, s.proposal, ops.value, s.absorbed));
    ComposedIs(s, actions, sorted, ops, r);
  }
}
