/**
 Plan, ingest, plan again: every operation of a planned changeset answers the
 change it was planned for, no two move the same key, and so what ingest recorded
 of a plan is not planned again, a second ingest appends nothing, and staged
 ingests converge.
 */
module PlannedRounds {
  import opened Results
  import opened Order
  import opened Bags
  import opened PlanTypes
  import opened Merkle
  import opened Journal
  import opened FoldSpec
  import opened JournalGrowth
  import opened EventBuilder
  import opened InvariantChecker
  import opened Reconciler
  import opened IngestLaws
  import opened Idempotence
  import opened SpecGraph
  import opened Resolver
  import opened Labeler
  import opened Matcher
  import opened Classifier
  import opened Builder
  import opened PlanIngest
  import opened RoundLaws
  import P = PlanningLaws
  import L = ChangesetLaws
  import S = RunSafety
  import C = Convergence
  import Protocol

  // ---- one planning run ----

  /** A plan over the journal `base`, from a diff to a changeset. */
  datatype Plan = Plan(base: seq<Event>, status: map<string, string>, changes: seq<NodeChange>, graph: Specs,
                       correlated: Correlated, setting: Setting, cs: Changeset)

  function PairingsOf(p: Plan): seq<Pairing> {
    FlatMap(Matchable(p.status), FoldOf(p.base).entries)
  }

  ghost function ActionsOf(p: Plan): seq<Action> {
    var r := Classified(p.correlated, p.graph);
    if r.Ok? then r.value else []
  }

  /** No task is paired twice. */
  ghost predicate TasksApart(entries: seq<FoldEntry>) {
    forall a, b :: a in entries && b in entries && a.task == b.task && a.task != "" ==> a == b
  }

  /** A journal as runs leave it, with no task paired twice, and a diff that names each node once. */
  ghost predicate Sane(p: Plan) {
    && Sound(p.base) && Protocol.Shaped(p.base) && TasksApart(FoldOf(p.base).entries)
    && P.DistinctKeys(p.changes) && PlainTypes(p.changes)
    && forall c :: c in p.changes ==> c.key != "" && c.key != p.setting.proposal && (c.kind != LeafRemoved ==> c.newHash != "")
  }

  /** The matcher, the classifier and the builder made this changeset. */
  ghost predicate Planned(p: Plan) {
    && IsCorrelation(p.changes, PairingsOf(p), p.correlated) && Classified(p.correlated, p.graph).Ok?
    && p.setting.fold == FoldView(FoldOf(p.base).entries, p.status)
    && BuildOutcome(p.setting, ActionsOf(p), Ok(p.cs))
  }

  // ---- pairings ----

  function EntryKey(): FoldEntry -> string {
    (e: FoldEntry) => e.key
  }

  function PairedNode(): Pairing -> string {
    (p: Pairing) => p.node
  }

  lemma EntriesByKey(journal: seq<Event>)
    ensures P.DistinctBy(EntryKey(), FoldOf(journal).entries)
  {
    FoldListsLinkage(journal);
    var entries := FoldOf(journal).entries;
    forall i, j | 0 <= i < j < |entries|
      ensures EntryKey()(entries[i]) != EntryKey()(entries[j])
    {
      assert entries[i] in entries && entries[j] in entries;
    }
  }

  /** A live entry names its task. */
  lemma {:induction false} EntryTasked(events: seq<Event>, index: map<string, nat>, k: string, n: nat)
    requires n <= |events| && Journal.Indexed(events, index) && Protocol.Shaped(events)
    ensures var e := EntryAt(events, index, k, n); e.Some? && !e.value.removed ==> e.value.task != ""
  {
    if n > 0 {
      EntryTasked(events, index, k, n - 1);
      assert LineShape(events[n - 1]);
    }
  }

  lemma LinkageTasked(journal: seq<Event>, k: string)
    requires Protocol.Shaped(journal)
    ensures var e := Linkage(journal, k); e.Some? && !e.value.removed ==> e.value.task != ""
  {
    IndexIndexed(journal);
    EntryTasked(journal, Index(journal), k, |journal|);
  }

  lemma PairingEntry(p: Plan, x: Pairing) returns (e: FoldEntry)
    requires x in PairingsOf(p)
    ensures e in FoldOf(p.base).entries && !e.removed && e.key == x.node && e.task == x.task && Linkage(p.base, x.node) == Some(e)
  {
    hide FoldOf, Linkage;
    FlatMapMember(Matchable(p.status), FoldOf(p.base).entries, x);
    e :| e in FoldOf(p.base).entries && x in Matchable(p.status)(e);
    FoldKeys(p.base);
  }

  /** The pairings of a sane journal: one per node and one per task. */
  lemma PairingsApart(p: Plan)
    requires Protocol.Shaped(p.base) && TasksApart(FoldOf(p.base).entries)
    ensures P.OnePerNode(PairingsOf(p))
  {
    hide FoldOf, Linkage, Protocol.Shaped, TasksApart;
    var pairings := PairingsOf(p);
    EntriesByKey(p.base);
    assert P.OneEach(Matchable(p.status), EntryKey(), PairedNode(), FoldOf(p.base).entries);
    P.FlatDistinct(Matchable(p.status), EntryKey(), PairedNode(), FoldOf(p.base).entries);
    forall i, j | 0 <= i < j < |pairings|
      ensures pairings[i].node != pairings[j].node && pairings[i].task != pairings[j].task
    {
      assert PairedNode()(pairings[i]) != PairedNode()(pairings[j]);
      OtherTask(p, pairings[i], pairings[j]);
    }
  }

  lemma OtherTask(p: Plan, x: Pairing, y: Pairing)
    requires Protocol.Shaped(p.base) && TasksApart(FoldOf(p.base).entries)
    requires x in PairingsOf(p) && y in PairingsOf(p) && x.node != y.node
    ensures x.task != "" && x.task != y.task
  {
    hide FoldOf, Linkage, Protocol.Shaped;
    var e := PairingEntry(p, x);
    var f := PairingEntry(p, y);
    LinkageTasked(p.base, x.node);
  }

  // ---- where actions come from ----

  /** The action does what the change asks for. */
  ghost predicate From(c: NodeChange, graph: Specs, a: Action) {
    a.node == c.key && a.nodeType == c.nodeType &&
    match a.kind
    case ActionCreate => if IsCleanup(a) then c.kind == LeafRemoved else c.kind != LeafRemoved && a.hash == c.newHash
    case ActionRetarget => !IsCleanup(a) && c.kind != LeafRemoved && a.hash == c.newHash
    case ActionObsolete =>
      if c.kind == LeafRemoved then REASON_REMOVED <= a.reason else IsFoldback(c, graph) && !(REASON_REMOVED <= a.reason)
  }

  lemma RecordFrom(c: NodeChange, graph: Specs, rec: Pairing, a: Action)
    requires a in RecordActions(c, graph)(rec) && c.kind != LeafRemoved
    ensures From(c, graph, a)
  {
    hide IsFoldback, NodeName, ChangeDeps;
    assert a.reason[0] == 'S' && a.reason[10] == 'm';
  }

  lemma OrphanFrom(o: Orphaned, a: Action, c: NodeChange, graph: Specs)
    requires a in OrphanActions()(o) && o.record.node == c.key && o.nodeType == c.nodeType && c.kind == LeafRemoved
    ensures From(c, graph, a)
  {
    hide IsFoldback;
  }

  lemma UnmatchedFrom(c: NodeChange, graph: Specs, a: Action)
    requires a in UnmatchedActions(graph)(c)
    ensures From(c, graph, a)
  {
    hide IsFoldback, GateAdmits, NodeName, ChangeDeps;
    assert a.reason[0] == 'S' || a.reason[0] == 'N';
  }

  lemma RawFrom(changes: seq<NodeChange>, pairings: seq<Pairing>, r: Correlated, graph: Specs, a: Action) returns (c: NodeChange)
    requires IsCorrelation(changes, pairings, r) && a in RawActions(r, graph)
    ensures c in changes && From(c, graph, a)
  {
    hide From, MatchActions, OrphanActions, UnmatchedActions, RecordActions, IsOrphanList, Records;
    if a in FlatMap(MatchActions(graph), r.matches) {
      var d, rec := MatchSource(changes, pairings, graph, a);
      RecordFrom(d, graph, rec, a);
      c := d;
    } else if a in FlatMap(OrphanActions(), r.orphaned) {
      c := OrphanedFrom(changes, pairings, r, graph, a);
    } else {
      c := NewFrom(changes, pairings, r, graph, a);
    }
  }

  lemma OrphanedFrom(changes: seq<NodeChange>, pairings: seq<Pairing>, r: Correlated, graph: Specs, a: Action) returns (c: NodeChange)
    requires IsCorrelation(changes, pairings, r) && a in FlatMap(OrphanActions(), r.orphaned)
    ensures c in changes && From(c, graph, a)
  {
    hide From, OrphanActions, Records;
    FlatMapMember(OrphanActions(), r.orphaned, a);
    var o :| o in r.orphaned && a in OrphanActions()(o);
    FlatMapMember(OrphansOf(pairings), changes, o);
    c :| c in changes && o in OrphansOf(pairings)(c);
    FlatMapMember(AsOrphan(c.nodeType), Records(pairings, c.key), o);
    var d := OrphanSource(changes, pairings, o);
    OrphanKey(pairings, c, o);
    OrphanFrom(o, a, c, graph);
  }

  lemma OrphanKey(pairings: seq<Pairing>, c: NodeChange, o: Orphaned)
    requires o in OrphansOf(pairings)(c)
    ensures o.record.node == c.key && o.nodeType == c.nodeType && c.kind == LeafRemoved
  {
    FlatMapMember(AsOrphan(c.nodeType), Records(pairings, c.key), o);
    FlatMapMember(WithNode(c.key), pairings, o.record);
  }

  lemma NewFrom(changes: seq<NodeChange>, pairings: seq<Pairing>, r: Correlated, graph: Specs, a: Action) returns (c: NodeChange)
    requires IsCorrelation(changes, pairings, r) && a in FlatMap(UnmatchedActions(graph), r.unmatched)
    ensures c in changes && From(c, graph, a)
  {
    hide From, UnmatchedActions, UnmatchedOf, Records, IsOrphanList;
    FlatMapMember(UnmatchedActions(graph), r.unmatched, a);
    var u :| u in r.unmatched && a in UnmatchedActions(graph)(u);
    FlatMapMember(UnmatchedOf(pairings), changes, u);
    c :| c in changes && u in UnmatchedOf(pairings)(c);
    UnmatchedMade(pairings, graph, c, u, a);
    UnmatchedFrom(u, graph, a);
  }

  /** Every action of a plan does what some change of its node asks for. */
  lemma ActionFrom(p: Plan, a: Action) returns (c: NodeChange)
    requires Planned(p) && a in ActionsOf(p)
    ensures c in p.changes && From(c, p.graph, a)
  {
    hide RawActions, Classified, IsCorrelation, BuildOutcome, FoldOf, FoldView;
    var raw := ClassifiedFrom(p.correlated, p.graph, a);
    c := RawFrom(p.changes, PairingsOf(p), p.correlated, p.graph, raw);
  }

  // ---- the operations ----

  lemma ActionsApart(p: Plan)
    requires Sane(p) && Planned(p)
    ensures DistinctIds(ActionsOf(p)) && forall a :: a in ActionsOf(p) ==> a.node != p.setting.proposal
  {
    hide Classified, IsCorrelation, BuildOutcome, FoldOf, FoldView, Sound, PlainTypes, P.OnePerNode;
    PairingsApart(p);
    P.ClassifiedDistinct(p.changes, PairingsOf(p), p.correlated, p.graph);
    forall a | a in ActionsOf(p)
      ensures a.node != p.setting.proposal
    {
      var c := ActionFrom(p, a);
    }
  }

  lemma PlanBuilt(p: Plan)
    requires Sane(p) && Planned(p)
    ensures L.Built(p.setting, ActionsOf(p), p.cs)
  {
    hide Sane, BuildOutcome, IsCorrelation, ActionsOf, ResolveEpicAction, DistinctIds;
    ActionsApart(p);
    var epic := ResolveEpicAction(p.setting.proposal, p.setting.fold, p.setting.registration);
    if epic.Ok? {
      BatchDistinct(p.setting, ActionsOf(p), epic.value);
    }
  }

  lemma PlanParts(p: Plan) returns (epic: Option<Action>, sorted: seq<Action>)
    requires Sane(p) && Planned(p)
    ensures L.Parts(p.setting, ActionsOf(p), p.cs, epic, sorted)
    ensures DistinctIds(ActionsOf(p)) && forall a :: a in ActionsOf(p) ==> a.node != p.setting.proposal
  {
    hide Sane, Planned, ActionsOf, L.Built, L.Parts;
    ActionsApart(p);
    PlanBuilt(p);
    epic, sorted := L.BuiltParts(p.setting, ActionsOf(p), p.cs);
  }

  ghost predicate Assembled(p: Plan, epic: Option<Action>, sorted: seq<Action>) {
    && L.Parts(p.setting, ActionsOf(p), p.cs, epic, sorted)
    && DistinctIds(ActionsOf(p)) && forall a :: a in ActionsOf(p) ==> a.node != p.setting.proposal
  }

  /** The action behind operation i. */
  ghost function Behind(p: Plan, sorted: seq<Action>, i: nat): Action
    requires i < |sorted| + |OfKind(ActionsOf(p), ActionRetarget)| + |OfKind(ActionsOf(p), ActionObsolete)|
  {
    L.ActionAt(sorted, OfKind(ActionsOf(p), ActionRetarget), OfKind(ActionsOf(p), ActionObsolete), i)
  }

  predicate IsEpic(p: Plan, a: Action) {
    a.nodeType == KIND_PROPOSAL_EPIC && a.node == p.setting.proposal && a.kind == ActionCreate
  }

  ghost predicate OpMatches(op: Op, a: Action) {
    match a.kind
    case ActionCreate => op.kind == Create && op.node == a.node && op.nodeKind == CreateKind(a)
    case ActionRetarget => op.kind == Retarget && op.node == a.node && op.hash == a.hash
    case ActionObsolete => op == CloseOp(a)
  }

  lemma RetargetMatches(ctx: Context, a: Action, op: Op)
    requires RetargetOp(ctx, a) == Ok(op) && a.kind == ActionRetarget
    ensures OpMatches(op, a)
  {
    hide DepsOf, LabelFor;
  }

  /** Every operation is made from an action of its kind, the epic's or one of the plan's. */
  lemma OpBehind(p: Plan, epic: Option<Action>, sorted: seq<Action>, i: nat)
    requires Assembled(p, epic, sorted) && i < |p.cs.ops|
    ensures |p.cs.ops| == |sorted| + |OfKind(ActionsOf(p), ActionRetarget)| + |OfKind(ActionsOf(p), ActionObsolete)|
    ensures var a := Behind(p, sorted, i); OpMatches(p.cs.ops[i], a) && (a in ActionsOf(p) || IsEpic(p, a))
    ensures i < |sorted| <==> Behind(p, sorted, i).kind == ActionCreate
  {
    hide L.Parts, CreateOp, RetargetOp, CreateKind, ContextOf, ActionsOf, DistinctIds;
    var s, actions, cs := p.setting, ActionsOf(p), p.cs;
    L.OpCount(s, actions, cs, epic, sorted);
    L.PlacedParts(s, actions, cs, epic, sorted);
    var retargets, obsoletes := OfKind(actions, ActionRetarget), OfKind(actions, ActionObsolete);
    if i < |sorted| {
      L.CreateAt(s, actions, cs, epic, sorted, i);
      SortedFrom(p, epic, sorted, i);
    } else {
      L.OpOf(s, actions, cs, epic, sorted, i);
      if i < |sorted| + |retargets| {
        assert retargets[i - |sorted|] in retargets;
        RetargetMatches(ContextOf(s, sorted, retargets), retargets[i - |sorted|], cs.ops[i]);
      } else {
        assert obsoletes[i - |sorted| - |retargets|] in obsoletes;
      }
    }
  }

  lemma SortedFrom(p: Plan, epic: Option<Action>, sorted: seq<Action>, i: nat)
    requires Assembled(p, epic, sorted) && i < |sorted|
    ensures sorted[i].kind == ActionCreate && (sorted[i] in ActionsOf(p) || IsEpic(p, sorted[i]))
  {
    hide ActionsOf, DistinctIds;
    L.SortedParts(p.setting, ActionsOf(p), p.cs, epic, sorted);
    assert sorted[i] in multiset(BatchWithEpic(epic, ActionsOf(p)));
    EpicIs(p, epic, sorted);
  }

  lemma EpicIs(p: Plan, epic: Option<Action>, sorted: seq<Action>)
    requires L.Parts(p.setting, ActionsOf(p), p.cs, epic, sorted)
    ensures epic.Some? ==> IsEpic(p, epic.value)
  {
    hide ActionsOf, OfKind, BatchWithEpic;
  }

  lemma SameKindApart(p: Plan, epic: Option<Action>, sorted: seq<Action>, i: nat, j: nat)
    requires Assembled(p, epic, sorted) && i < j < |sorted| + |OfKind(ActionsOf(p), ActionRetarget)| + |OfKind(ActionsOf(p), ActionObsolete)|
    requires var m := |sorted| + |OfKind(ActionsOf(p), ActionRetarget)|; j < |sorted| || (|sorted| <= i && j < m) || m <= i
    ensures Behind(p, sorted, i).node != Behind(p, sorted, j).node
  {
    hide L.Parts, ActionsOf, OpMatches, OfKind;
    var actions := ActionsOf(p);
    var m := |OfKind(actions, ActionRetarget)|;
    if j < |sorted| {
      L.SortedParts(p.setting, actions, p.cs, epic, sorted);
    } else if j < |sorted| + m {
      var x, y := L.OfKindOrder(actions, ActionRetarget, i - |sorted|, j - |sorted|);
    } else {
      var x, y := L.OfKindOrder(actions, ActionObsolete, i - |sorted| - m, j - |sorted| - m);
    }
  }

  lemma KindsApart(p: Plan, epic: Option<Action>, sorted: seq<Action>, x: Action, y: Action)
    requires Assembled(p, epic, sorted) && x.kind != y.kind
    requires (x in ActionsOf(p) || IsEpic(p, x)) && (y in ActionsOf(p) || IsEpic(p, y))
    ensures x.node != y.node
  {
    hide L.Parts, ActionsOf;
    DistinctElements(ActionsOf(p));
  }

  /** Two operations are about two nodes. */
  lemma NodesApart(p: Plan, epic: Option<Action>, sorted: seq<Action>, i: nat, j: nat)
    requires Assembled(p, epic, sorted) && i < j < |p.cs.ops|
    ensures |p.cs.ops| == |sorted| + |OfKind(ActionsOf(p), ActionRetarget)| + |OfKind(ActionsOf(p), ActionObsolete)|
    ensures Behind(p, sorted, i).node != Behind(p, sorted, j).node
  {
    hide Assembled, ActionsOf, OpMatches, OfKind, Behind;
    OpBehind(p, epic, sorted, i);
    OpBehind(p, epic, sorted, j);
    var m := |sorted| + |OfKind(ActionsOf(p), ActionRetarget)|;
    if j < |sorted| || (|sorted| <= i && j < m) || m <= i {
      SameKindApart(p, epic, sorted, i, j);
    } else {
      KindsDiffer(p, sorted, i, j);
      KindsApart(p, epic, sorted, Behind(p, sorted, i), Behind(p, sorted, j));
    }
  }

  lemma KindsDiffer(p: Plan, sorted: seq<Action>, i: nat, j: nat)
    requires i < j < |sorted| + |OfKind(ActionsOf(p), ActionRetarget)| + |OfKind(ActionsOf(p), ActionObsolete)|
    requires i < |sorted| <= j || i < |sorted| + |OfKind(ActionsOf(p), ActionRetarget)| <= j
    requires i < |sorted| <==> Behind(p, sorted, i).kind == ActionCreate
    requires j >= |sorted|
    requires i >= |sorted| ==> |sorted| + |OfKind(ActionsOf(p), ActionRetarget)| <= j
    ensures Behind(p, sorted, i).kind != Behind(p, sorted, j).kind
  {
    hide ActionsOf;
    var retargets, obsoletes := OfKind(ActionsOf(p), ActionRetarget), OfKind(ActionsOf(p), ActionObsolete);
    assert j < |sorted| + |retargets| ==> retargets[j - |sorted|] in retargets;
    assert j >= |sorted| + |retargets| ==> obsoletes[j - |sorted| - |retargets|] in obsoletes;
    assert i >= |sorted| ==> retargets[i - |sorted|] in retargets;
  }

  // ---- keys ----

  lemma CloseTask(p: Plan, a: Action)
    requires Sane(p) && Planned(p) && a in ActionsOf(p) && a.kind == ActionObsolete
    ensures a.task != "" && exists e :: e in FoldOf(p.base).entries && e.key == a.node && e.task == a.task
    ensures EntryByTask(FoldOf(p.base).entries, a.task).Some? && EntryByTask(FoldOf(p.base).entries, a.task).value.key == a.node
  {
    hide Classified, IsCorrelation, BuildOutcome, FoldOf, FoldView, PlainTypes, Linkage, IsCleanup;
    ClassifiedFit(p.changes, PairingsOf(p), p.correlated, p.graph, a);
    var rec :| rec in PairingsOf(p) && rec.node == a.node && rec.task == a.task;
    var e := PairingEntry(p, rec);
    LinkageTasked(p.base, rec.node);
  }

  /** The key an operation moves is the node its action is about. */
  lemma KeyIs(p: Plan, epic: Option<Action>, sorted: seq<Action>, i: nat)
    requires Sane(p) && Planned(p) && Assembled(p, epic, sorted) && i < |p.cs.ops|
    ensures |p.cs.ops| == |sorted| + |OfKind(ActionsOf(p), ActionRetarget)| + |OfKind(ActionsOf(p), ActionObsolete)|
    ensures KeyOf(p.base, p.cs.ops[i]) in [None, Some(Behind(p, sorted, i).node)]
  {
    hide Sane, Planned, Assembled, ActionsOf, FoldOf, OfKind, Behind, CreateKind, EntryByTask;
    OpBehind(p, epic, sorted, i);
    var a := Behind(p, sorted, i);
    if a.kind == ActionObsolete {
      CloseTask(p, a);
    }
  }

  lemma KeysDiffer(p: Plan, i: nat, j: nat)
    requires Sane(p) && Planned(p) && i < |p.cs.ops| && j < |p.cs.ops| && i != j
    ensures KeyOf(p.base, p.cs.ops[i]).Some? ==> KeyOf(p.base, p.cs.ops[i]) != KeyOf(p.base, p.cs.ops[j])
  {
    hide Sane, Planned, ActionsOf, KeyOf, OfKind, Behind, L.Parts;
    var epic, sorted := PlanParts(p);
    assert Assembled(p, epic, sorted);
    KeyIs(p, epic, sorted, i);
    KeyIs(p, epic, sorted, j);
    if i < j {
      NodesApart(p, epic, sorted, i, j);
    } else {
      NodesApart(p, epic, sorted, j, i);
    }
  }

  /** The operations of a planned changeset move different keys, whatever receipts they get. */
  lemma PlannedKeysApart(p: Plan, byOp: map<string, OpReceipt>)
    requires Sane(p) && Planned(p) && Covers(byOp, p.cs)
    ensures C.KeysApart(p.base, p.cs, byOp) && CleanupsAlone(p.base, p.cs, byOp)
    ensures forall i, k {:trigger Touches(p.base, p.cs, byOp, i, k)} ::
              0 <= i < |p.cs.ops| && Touches(p.base, p.cs, byOp, i, k) ==> Alone(p.base, p.cs, byOp, i, k)
  {
    hide Sane, Planned, KeyOf;
    forall i: nat, j: nat, k | i < |p.cs.ops| && j < |p.cs.ops| && i != j && Touches(p.base, p.cs, byOp, i, k)
      ensures !Touches(p.base, p.cs, byOp, j, k)
    {
      KeysDiffer(p, i, j);
    }
  }

  // ---- answers ----

  /** Of the nodes ingest knows, it knows the hash the diff saw.  It knows no envelopes, requirements and the like. */
  ghost predicate SpecAgrees(nodes: SpecNodes, changes: seq<NodeChange>) {
    forall c :: c in changes && c.kind != LeafRemoved && c.key in nodes ==> nodes[c.key].specHash == c.newHash
  }

  /** Operation i of the plan's changeset contributed lines to the run. */
  ghost predicate LandedAt(p: Plan, nodes: SpecNodes, rcs: seq<OpReceipt>, i: nat) {
    var byOp, st := ReceiptIndex(rcs), StateFor(nodes, p.base);
    i < |p.cs.ops| && Covers(byOp, p.cs) && OpPart(st, p.cs, byOp, i).Ok? && OpPart(st, p.cs, byOp, i).value != []
  }

  /** What lands as a node's create is a node ingest knows. */
  ghost predicate CreateKnown(nodes: SpecNodes, op: Op) {
    op.kind == Create && op.nodeKind != KIND_CLEANUP && op.nodeKind != KIND_PROPOSAL_EPIC ==> op.node in nodes
  }

  lemma LinesKnown(st: BuilderState, cs: Changeset, op: Op, rc: OpReceipt)
    requires OpLines(st, cs, op, rc).Ok? && OpLines(st, cs, op, rc).value != []
    ensures CreateKnown(st.nodes, op)
  {
    hide BuildCleanupCreate, BuildEpicCreate, BuildClose, BuildRetarget, PriorHash, NonEmpty;
  }

  lemma LandedKnown(p: Plan, nodes: SpecNodes, rcs: seq<OpReceipt>, i: nat)
    requires LandedAt(p, nodes, rcs, i)
    ensures CreateKnown(nodes, p.cs.ops[i])
  {
    hide OpLines, CreateKnown;
    var byOp, st := ReceiptIndex(rcs), StateFor(nodes, p.base);
    LinesKnown(WithBatch(st, Part(st, p.cs, byOp, i)), p.cs, p.cs.ops[i], byOp[p.cs.ops[i].opId]);
  }

  /** The change only asks to close the task of a section folded back into its component. */
  predicate OnlyCloses(c: NodeChange, graph: Specs) {
    IsFoldback(c, graph) && c.kind != LeafRemoved
  }

  lemma AnswersFrom(p: Plan, nodes: SpecNodes, op: Op, a: Action, c: NodeChange)
    requires Sane(p) && SpecAgrees(nodes, p.changes) && c in p.changes && From(c, p.graph, a) && OpMatches(op, a)
    requires KeyOf(p.base, op) == Some(a.node) && CreateKnown(nodes, op)
    ensures Answers(nodes, p.base, op, c) || OnlyCloses(c, p.graph)
  {
    hide KeyOf, FoldOf, IsFoldback, IsCleanup, P.DistinctKeys, TasksApart, Sound, Protocol.Shaped;
    assert PlainType(c.nodeType);
  }

  /** Every operation that landed answers the change of its node, the epic's create aside. */
  lemma PlannedAnswers(p: Plan, nodes: SpecNodes, rcs: seq<OpReceipt>, i: nat) returns (c: NodeChange)
    requires Sane(p) && Planned(p) && SpecAgrees(nodes, p.changes) && LandedAt(p, nodes, rcs, i)
    requires KeyOf(p.base, p.cs.ops[i]).Some? && p.cs.ops[i].nodeKind != KIND_PROPOSAL_EPIC
    ensures c in p.changes && KeyOf(p.base, p.cs.ops[i]) == Some(c.key)
    ensures Answers(nodes, p.base, p.cs.ops[i], c) || OnlyCloses(c, p.graph)
  {
    hide Sane, Planned, ActionsOf, KeyOf, OfKind, Behind, L.Parts, From, SpecAgrees, Answers, IsFoldback, CreateKnown, OpPart;
    LandedKnown(p, nodes, rcs, i);
    var epic, sorted := PlanParts(p);
    assert Assembled(p, epic, sorted);
    OpBehind(p, epic, sorted, i);
    KeyIs(p, epic, sorted, i);
    var a := Behind(p, sorted, i);
    NotEpic(p, p.cs.ops[i], a);
    c := ActionFrom(p, a);
    FromNode(c, p.graph, a);
    AnswersFrom(p, nodes, p.cs.ops[i], a, c);
  }

  lemma NotEpic(p: Plan, op: Op, a: Action)
    requires OpMatches(op, a) && op.nodeKind != KIND_PROPOSAL_EPIC
    ensures !IsEpic(p, a)
  {
  }

  lemma FromNode(c: NodeChange, graph: Specs, a: Action)
    requires From(c, graph, a)
    ensures c.key == a.node
  {
  }

  // ---- a folded-back section ----

  lemma FoldbackRecord(c: NodeChange, graph: Specs, rec: Pairing, a: Action)
    requires OnlyCloses(c, graph) && a in RecordActions(c, graph)(rec)
    ensures a.kind == ActionObsolete && a.node == c.key
  {
    hide NodeName, ChangeDeps;
  }

  lemma FoldbackUnmatched(pairings: seq<Pairing>, c: NodeChange, graph: Specs)
    requires OnlyCloses(c, graph)
    ensures UnmatchedActions(graph)(c) == []
  {
    hide NodeName, ChangeDeps;
  }

  lemma RecordNode(c: NodeChange, graph: Specs, rec: Pairing, a: Action)
    requires a in RecordActions(c, graph)(rec)
    ensures a.node == c.key
  {
    hide NodeName, ChangeDeps, IsFoldback;
  }

  /** Such a section is never owed a task of its own. */
  lemma FoldbackCloses(changes: seq<NodeChange>, pairings: seq<Pairing>, r: Correlated, graph: Specs, c: NodeChange, a: Action)
    requires IsCorrelation(changes, pairings, r) && (forall d :: d in changes && d.key == c.key ==> d == c)
    requires OnlyCloses(c, graph) && a in RawActions(r, graph) && a.node == c.key
    ensures a.kind == ActionObsolete
  {
    hide MatchActions, OrphanActions, UnmatchedActions, RecordActions, IsOrphanList, Records, IsFoldback, OrphansOf, UnmatchedOf, MatchOf;
    if a in FlatMap(MatchActions(graph), r.matches) {
      var d, rec := MatchSource(changes, pairings, graph, a);
      RecordNode(d, graph, rec, a);
      FoldbackRecord(c, graph, rec, a);
    } else if a in FlatMap(OrphanActions(), r.orphaned) {
      FoldbackNoOrphan(changes, pairings, r, graph, c, a);
    } else {
      FlatMapMember(UnmatchedActions(graph), r.unmatched, a);
      var u :| u in r.unmatched && a in UnmatchedActions(graph)(u);
      FlatMapMember(UnmatchedOf(pairings), changes, u);
      var d :| d in changes && u in UnmatchedOf(pairings)(d);
      UnmatchedMade(pairings, graph, d, u, a);
      FoldbackUnmatched(pairings, c, graph);
    }
  }

  lemma FoldbackNoOrphan(changes: seq<NodeChange>, pairings: seq<Pairing>, r: Correlated, graph: Specs, c: NodeChange, a: Action)
    requires IsCorrelation(changes, pairings, r) && (forall d :: d in changes && d.key == c.key ==> d == c) && OnlyCloses(c, graph)
    requires a in FlatMap(OrphanActions(), r.orphaned)
    ensures a.node != c.key
  {
    hide OrphanActions, OrphansOf, Records, IsFoldback;
    FlatMapMember(OrphanActions(), r.orphaned, a);
    var o :| o in r.orphaned && a in OrphanActions()(o);
    OrphanActionShape(o, a);
    var d := OrphanSource(changes, pairings, o);
  }

  // ---- plan, ingest, plan ----

  /** The next plan of the same diff over the same spec, after the run appended its batch. */
  ghost predicate Next(p: Plan, batch: seq<Event>, q: Plan) {
    q.base == p.base + batch && q.changes == p.changes && q.graph == p.graph && q.setting.proposal == p.setting.proposal && Planned(q)
  }

  lemma OneChangePer(p: Plan, c: NodeChange)
    requires P.DistinctKeys(p.changes) && c in p.changes
    ensures forall d :: d in p.changes && d.key == c.key ==> d == c
  {
  }

  /** A landed operation has an ok receipt and a key. */
  lemma LandedKey(p: Plan, nodes: SpecNodes, declared: set<string>, rcs: seq<OpReceipt>, batch: seq<Event>, i: nat) returns (k: string)
    requires Sound(p.base) && Reconcile(nodes, declared, p.base, p.cs, rcs) == Ok(batch) && LandedAt(p, nodes, rcs, i)
    ensures i < |p.cs.ops| && Covers(ReceiptIndex(rcs), p.cs) && Touches(p.base, p.cs, ReceiptIndex(rcs), i, k)
  {
    hide OpLines, KeyOf, FoldOf, EidSet, Sound, AllTasked, OpPart;
    var byOp, st := ReceiptIndex(rcs), StateFor(nodes, p.base);
    C.ReconcilePasses(nodes, declared, p.base, p.cs, rcs, batch);
    var ops := BatchUpTo(st, p.cs, byOp, |p.cs.ops|);
    BatchParts(st, p.cs, byOp, i + 1, |p.cs.ops|);
    ChainSound(nodes, p.base, p.cs, byOp, i);
    ChainStep(nodes, p.base, p.cs, byOp, i);
    k := KeyOf(p.base, p.cs.ops[i]).value;
    LandedOk(p, nodes, rcs, i);
  }

  lemma LandedOk(p: Plan, nodes: SpecNodes, rcs: seq<OpReceipt>, i: nat)
    requires LandedAt(p, nodes, rcs, i)
    ensures ReceiptIndex(rcs)[p.cs.ops[i].opId].status == StatusOk
  {
    hide OpLines;
    var byOp, st := ReceiptIndex(rcs), StateFor(nodes, p.base);
    if byOp[p.cs.ops[i].opId].status != StatusOk {
      NothingUnlessOk(WithBatch(st, Part(st, p.cs, byOp, i)), p.cs, p.cs.ops[i], byOp[p.cs.ops[i].opId]);
    }
  }

  /**
   Plan, ingest, plan: whatever part of a plan landed is not planned again.  Where an operation
   contributed lines, the next plan of the same diff holds no create and no retarget for the node it
   moved, whatever the task artifact says by then; only a folded-back section's task may still be
   closed.
   */
  lemma PlannedOnce(p: Plan, nodes: SpecNodes, declared: set<string>, rcs: seq<OpReceipt>, batch: seq<Event>, q: Plan, i: nat, a: Action)
    requires Sane(p) && Planned(p) && SpecAgrees(nodes, p.changes)
    requires Reconcile(nodes, declared, p.base, p.cs, rcs) == Ok(batch) && Next(p, batch, q)
    requires LandedAt(p, nodes, rcs, i) && a in ActionsOf(q) && KeyOf(p.base, p.cs.ops[i]) == Some(a.node)
    ensures a.kind == ActionObsolete && exists c :: c in p.changes && c.key == a.node && OnlyCloses(c, p.graph)
  {
    hide Sane, ActionsOf, KeyOf, IsFoldback, Classified, BuildOutcome, FoldOf, FoldView, IsCorrelation, Answers, SpecAgrees, Reconcile, LandedAt, Alone;
    var d := ActionFrom(q, a);
    FromNode(d, p.graph, a);
    SaneFacts(p, d);
    var k := LandedKey(p, nodes, declared, rcs, batch, i);
    if p.cs.ops[i].nodeKind != KIND_PROPOSAL_EPIC {
      var c := PlannedAnswers(p, nodes, rcs, i);
      assert c == d;
      if OnlyCloses(c, p.graph) {
        CloseAgain(q, c, a);
      } else {
        PlannedKeysApart(p, ReceiptIndex(rcs));
        AnsweredOnce(p, nodes, declared, rcs, batch, q, i, c, a);
      }
    } else {
      EpicKey(p, i);
    }
  }

  lemma SaneFacts(p: Plan, d: NodeChange)
    requires Sane(p) && d in p.changes
    ensures Sound(p.base) && d.key != p.setting.proposal && forall c :: c in p.changes && c.key == d.key ==> c == d
  {
    OneChangePer(p, d);
  }

  /** An operation of the epic's kind is about the proposal. */
  lemma EpicKey(p: Plan, i: nat)
    requires Sane(p) && Planned(p) && i < |p.cs.ops| && p.cs.ops[i].nodeKind == KIND_PROPOSAL_EPIC
    ensures p.cs.ops[i].kind == Create && p.cs.ops[i].node == p.setting.proposal
    ensures KeyOf(p.base, p.cs.ops[i]) == Some(p.setting.proposal)
  {
    hide Planned, ActionsOf, OfKind, Behind, L.Parts, Sane;
    var epic, sorted := PlanParts(p);
    assert Assembled(p, epic, sorted);
    OpBehind(p, epic, sorted, i);
    var a := Behind(p, sorted, i);
    EpicOnly(p, epic, sorted, i);
  }

  lemma EpicOnly(p: Plan, epic: Option<Action>, sorted: seq<Action>, i: nat)
    requires Sane(p) && Planned(p) && Assembled(p, epic, sorted) && i < |p.cs.ops| && p.cs.ops[i].nodeKind == KIND_PROPOSAL_EPIC
    ensures p.cs.ops[i].kind == Create && p.cs.ops[i].node == p.setting.proposal
  {
    hide ActionsOf, OfKind, Behind, Assembled, Planned, RetargetOp;
    OpBehind(p, epic, sorted, i);
    var a := Behind(p, sorted, i);
    LaterKind(p, epic, sorted, i);
    if a in ActionsOf(p) {
      var c := ActionFrom(p, a);
      PlainFrom(p, c, a);
    }
  }

  lemma PlainFrom(p: Plan, c: NodeChange, a: Action)
    requires PlainTypes(p.changes) && c in p.changes && From(c, p.graph, a)
    ensures a.nodeType != KIND_PROPOSAL_EPIC && CreateKind(a) != KIND_PROPOSAL_EPIC
  {
    hide IsFoldback, IsCleanup;
    assert PlainType(c.nodeType);
  }

  /** Retargets and closes carry no node kind. */
  lemma LaterKind(p: Plan, epic: Option<Action>, sorted: seq<Action>, i: nat)
    requires Assembled(p, epic, sorted) && i < |p.cs.ops|
    ensures i >= |sorted| ==> p.cs.ops[i].nodeKind == ""
  {
    hide L.Parts, CreateOp, RetargetOp, ContextOf, ActionsOf, DistinctIds;
    var s, actions, cs := p.setting, ActionsOf(p), p.cs;
    L.OpCount(s, actions, cs, epic, sorted);
    L.PlacedParts(s, actions, cs, epic, sorted);
    if i >= |sorted| {
      L.OpOf(s, actions, cs, epic, sorted, i);
      var retargets := OfKind(actions, ActionRetarget);
      if i < |sorted| + |retargets| {
        RetargetKind(ContextOf(s, sorted, retargets), retargets[i - |sorted|], cs.ops[i]);
      }
    }
  }

  lemma RetargetKind(ctx: Context, a: Action, op: Op)
    requires RetargetOp(ctx, a) == Ok(op)
    ensures op.nodeKind == ""
  {
    hide DepsOf, LabelFor;
  }

  lemma CloseAgain(q: Plan, c: NodeChange, a: Action)
    requires Planned(q) && (forall d :: d in q.changes && d.key == c.key ==> d == c)
    requires OnlyCloses(c, q.graph) && a in ActionsOf(q) && a.node == c.key
    ensures a.kind == ActionObsolete
  {
    hide RawActions, Classified, IsCorrelation, BuildOutcome, FoldOf, FoldView, IsFoldback;
    var raw := ClassifiedFrom(q.correlated, q.graph, a);
    FoldbackCloses(q.changes, PairingsOf(q), q.correlated, q.graph, c, raw);
  }

  lemma AnsweredOnce(p: Plan, nodes: SpecNodes, declared: set<string>, rcs: seq<OpReceipt>, batch: seq<Event>, q: Plan, i: nat,
                     c: NodeChange, a: Action)
    requires Sound(p.base) && Reconcile(nodes, declared, p.base, p.cs, rcs) == Ok(batch) && Next(p, batch, q)
    requires LandedAt(p, nodes, rcs, i) && Answers(nodes, p.base, p.cs.ops[i], c) && Alone(p.base, p.cs, ReceiptIndex(rcs), i, c.key)
    requires c in p.changes && (forall d :: d in p.changes && d.key == c.key ==> d == c)
    requires a in ActionsOf(q) && a.node == c.key
    ensures a.kind == ActionObsolete && OnlyCloses(c, p.graph)
  {
    hide Classified, BuildOutcome, FoldOf, FoldView, IsCorrelation, Answers, Reconcile, Alone, IsFoldback, OpPart, Sound;
    NoRework(nodes, declared, p.base, p.cs, rcs, batch, i, q.status, q.changes, q.correlated, q.graph, c, a);
  }

  /** An epic whose create landed is not created again. */
  lemma PlannedEpicOnce(p: Plan, nodes: SpecNodes, declared: set<string>, rcs: seq<OpReceipt>, batch: seq<Event>, q: Plan, i: nat)
    requires Sane(p) && Planned(p) && Reconcile(nodes, declared, p.base, p.cs, rcs) == Ok(batch) && Next(p, batch, q)
    requires LandedAt(p, nodes, rcs, i) && p.cs.ops[i].nodeKind == KIND_PROPOSAL_EPIC
    ensures ResolveEpicAction(q.setting.proposal, q.setting.fold, q.setting.registration) == Ok(None)
  {
    hide ActionsOf, KeyOf, Classified, BuildOutcome, FoldOf, FoldView, IsCorrelation, Reconcile, Alone, OpPart, Sound, PlainTypes, TasksApart,
      ResolveEpicAction, C.KeysApart, CleanupsAlone;
    var k := LandedKey(p, nodes, declared, rcs, batch, i);
    EpicKey(p, i);
    PlannedKeysApart(p, ReceiptIndex(rcs));
    EpicNotAgain(nodes, declared, p.base, p.cs, rcs, batch, i, q.status, q.setting.registration);
  }

  // ---- the other two laws, for planned changesets ----

  /** A second ingest of a planned changeset and the same receipts appends nothing. */
  lemma PlannedRerun(p: Plan, nodes: SpecNodes, declared: set<string>, rcs: seq<OpReceipt>, batch: seq<Event>)
    requires Sane(p) && Planned(p) && Reconcile(nodes, declared, p.base, p.cs, rcs) == Ok(batch)
    ensures Reconcile(nodes, declared, p.base + batch, p.cs, rcs) == Ok([])
  {
    hide Planned, C.KeysApart, FullBatch, Gate, StateFor, CleanupsAlone;
    PlannedKeysApart(p, ReceiptIndex(rcs));
    RerunAppendsNothing(nodes, declared, p.base, p.cs, rcs, batch);
  }

  /** The tasks that creates report are new to the journal. */
  ghost predicate CreatesFresh(p: Plan, byOp: map<string, OpReceipt>)
    requires Covers(byOp, p.cs)
  {
    forall d, e :: d in p.cs.ops && d.kind == Create && byOp[d.opId].status == StatusOk && e in FoldOf(p.base).entries
      ==> e.task != byOp[d.opId].task
  }

  lemma PlannedTasksFresh(p: Plan, byOp: map<string, OpReceipt>)
    requires Sane(p) && Planned(p) && Covers(byOp, p.cs) && CreatesFresh(p, byOp)
    ensures C.TasksFresh(p.cs, byOp)
  {
    hide Sane, Planned, ActionsOf, OfKind, Behind, L.Parts, FoldOf, CreateKind;
    var epic, sorted := PlanParts(p);
    assert Assembled(p, epic, sorted);
    forall c, d | c in p.cs.ops && d in p.cs.ops && c.kind == Close && d.kind == Create && byOp[d.opId].status == StatusOk
      ensures TargetTask(c) != Some(byOp[d.opId].task)
    {
      var i :| 0 <= i < |p.cs.ops| && p.cs.ops[i] == c;
      OpBehind(p, epic, sorted, i);
      CloseTask(p, Behind(p, sorted, i));
    }
  }

  /** Staged ingests of a planned changeset converge. */
  lemma PlannedConverge(p: Plan, nodes: SpecNodes, declared: set<string>, rcsPartial: seq<OpReceipt>, rcsFull: seq<OpReceipt>,
                        whole: seq<Event>) returns (first: seq<Event>, second: seq<Event>)
    requires Sane(p) && Planned(p) && Protocol.PlainHead(p.setting.gitHead) && S.DistinctAbsorbed(p.cs)
    requires PairError(p.cs, rcsPartial).None? && Reconcile(nodes, declared, p.base, p.cs, rcsFull) == Ok(whole)
    requires Covers(ReceiptIndex(rcsPartial), p.cs) && Covers(ReceiptIndex(rcsFull), p.cs)
    requires C.Fuller(p.cs, ReceiptIndex(rcsPartial), ReceiptIndex(rcsFull)) && CreatesFresh(p, ReceiptIndex(rcsFull))
    ensures Reconcile(nodes, declared, p.base, p.cs, rcsPartial) == Ok(first)
    ensures Reconcile(nodes, declared, p.base + first, p.cs, rcsFull) == Ok(second)
    ensures multiset(first + second) == multiset(whole)
  {
    hide Planned, Reconcile, Covers, C.Fuller, CreatesFresh, S.DistinctAbsorbed, C.KeysApart, C.TasksFresh, PairError, CleanupsAlone;
    PlannedKeysApart(p, ReceiptIndex(rcsFull));
    PlannedTasksFresh(p, ReceiptIndex(rcsFull));
    PlannedIds(p);
    first, second := C.StagedRunsConverge(nodes, declared, p.base, p.cs, rcsPartial, rcsFull, whole);
  }

  lemma PlannedIds(p: Plan)
    requires Sane(p) && Planned(p) && Protocol.PlainHead(p.setting.gitHead)
    ensures C.DistinctOpIds(p.cs) && C.HexHead(p.cs)
  {
    hide Classified, IsCorrelation, BuildOutcome, FoldOf, FoldView, PlainTypes, L.Keyed, L.Built, P.DistinctKeys, TasksApart, P.OnePerNode;
    PairingsApart(p);
    ClassifiedKeyed(p.changes, PairingsOf(p), p.correlated, p.graph);
    PlanBuilt(p);
    L.BuiltHead(p.setting, ActionsOf(p), p.cs);
    forall i, j | 0 <= i < j < |p.cs.ops|
      ensures p.cs.ops[i].opId != p.cs.ops[j].opId
    {
      L.OpIdsDistinct(p.setting, ActionsOf(p), p.cs, i, j);
    }
    assert p.setting.gitHead[0] in p.setting.gitHead;
  }

  lemma PlannedPlain(p: Plan, a: Action)
    requires Sane(p) && Planned(p) && a in ActionsOf(p)
    ensures PlainAction(a, p.setting.proposal)
  {
    hide ActionsOf, Planned, IsCleanup, IsFoldback, P.DistinctKeys, TasksApart;
    var c := ActionFrom(p, a);
    assert PlainType(c.nodeType);
  }

  /** For a planned changeset, every label names the event ingest records. */
  lemma PlannedLabel(p: Plan, st: BuilderState, i: nat, rc: OpReceipt, e: Event)
    requires Sane(p) && Planned(p) && p.setting.registration == Registration(p.base, p.setting.proposal)
    requires st.fold == FoldOf(p.base) && st.registered == RegisteredBy(p.base) && i < |p.cs.ops|
    requires OpLines(st, p.cs, p.cs.ops[i], rc).Ok? && e in OpLines(st, p.cs, p.cs.ops[i], rc).value && TaskBearing(e)
    ensures Names(LabelOf(p.cs.ops[i]), e)
  {
    hide ActionsOf, OpLines, BuildOutcome, IsCorrelation, Classified, FoldOf, FoldView, L.Built, Registration, Names, PlainAction, PlainTypes, TasksApart, P.DistinctKeys;
    PlanBuilt(p);
    L.BuiltHead(p.setting, ActionsOf(p), p.cs);
    forall a | a in ActionsOf(p)
      ensures PlainAction(a, p.setting.proposal)
    {
      PlannedPlain(p, a);
    }
    LabelIsEvent(p.base, p.status, p.setting, st, ActionsOf(p), p.cs, i, rc, e);
  }
}
