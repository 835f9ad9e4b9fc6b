/**
 Once round the loop: what ingest recorded is not planned again, and the label
 the planner puts on an operation names the event ingest records for it.
 */
module RoundLaws {
  import opened Results
  import opened Order
  import opened Bags
  import opened PlanTypes
  import opened Merkle
  import opened Journal
  import opened FoldSpec
  import opened JournalGrowth
  import opened EventBuilder
  import opened InvariantChecker
  import opened Reconciler
  import opened IngestLaws
  import opened Idempotence
  import opened SpecGraph
  import opened Resolver
  import opened Labeler
  import opened Matcher
  import opened Classifier
  import opened Sorter
  import opened Builder
  import opened PlanIngest
  import P = PlanningLaws
  import L = ChangesetLaws
  import S = RunSafety
  import Protocol

  // ---- no rework ----

  /** The operation does what the change asks for, on the same spec. */
  ghost predicate Answers(nodes: SpecNodes, base: seq<Event>, op: Op, c: NodeChange) {
    KeyOf(base, op) == Some(c.key) && c.key != "" &&
    match op.kind
    case Create =>
      if op.nodeKind == KIND_CLEANUP then c.kind == LeafRemoved
      else op.nodeKind != KIND_PROPOSAL_EPIC && c.kind != LeafRemoved && c.newHash != ""
           && op.node in nodes && nodes[op.node].specHash == c.newHash
    case Retarget => c.kind != LeafRemoved && c.newHash != "" && op.hash == c.newHash
    case Close => REASON_REMOVED <= op.reason && c.kind == LeafRemoved
    case UnknownOp => false
  }

  /** No other operation of the run moves the key of operation i. */
  ghost predicate Alone(base: seq<Event>, cs: Changeset, byOp: map<string, OpReceipt>, i: nat, k: string)
    requires Covers(byOp, cs)
  {
    forall j :: 0 <= j < |cs.ops| && j != i ==> !Touches(base, cs, byOp, j, k)
  }

  /** Where a landed operation leaves its key is where the run leaves it. */
  lemma LandedAfterRun(nodes: SpecNodes, base: seq<Event>, cs: Changeset, byOp: map<string, OpReceipt>, batch: seq<Event>, i: nat, k: string)
    requires Covers(byOp, cs) && Ran(nodes, base, cs, byOp, batch) && i < |cs.ops|
    requires KeyOf(base, cs.ops[i]) == Some(k) && Alone(base, cs, byOp, i, k)
    requires OpPart(StateFor(nodes, base), cs, byOp, i).Ok? && OpPart(StateFor(nodes, base), cs, byOp, i).value != []
    ensures Lands(base + batch, cs.ops[i], byOp[cs.ops[i].opId], OpPart(StateFor(nodes, base), cs, byOp, i).value, k)
  {
    hide OpLines, Linkage, FoldOf, EidSet, KeyOf, StateFor, Touches, DistinctEids, NoDangling, FullBatch;
    var st, n := StateFor(nodes, base), |cs.ops|;
    AfterRun(nodes, base, cs, byOp, batch, k);
    BatchParts(st, cs, byOp, i + 1, n);
    ChainSound(nodes, base, cs, byOp, i);
    ChainStep(nodes, base, cs, byOp, i);
    Idempotence.Untouched(nodes, base, cs, byOp, i + 1, n, k);
  }

  /** The change event a landed create or retarget leaves behind carries the hash it was made for. */
  lemma LandedHash(st: BuilderState, base: seq<Event>, cs: Changeset, op: Op, rc: OpReceipt, lines: seq<Event>, c: NodeChange)
    requires st.fold == FoldOf(base) && OpLines(st, cs, op, rc) == Ok(lines) && lines != []
    requires Answers(st.nodes, base, op, c) && c.kind != LeafRemoved
    ensures lines[0].Change? && lines[0].node == c.key && lines[0].after == Some(c.newHash)
  {
  }

  lemma OpLanded(nodes: SpecNodes, base: seq<Event>, cs: Changeset, byOp: map<string, OpReceipt>, batch: seq<Event>, i: nat, c: NodeChange)
    requires Covers(byOp, cs) && Ran(nodes, base, cs, byOp, batch) && i < |cs.ops|
    requires Answers(nodes, base, cs.ops[i], c) && Alone(base, cs, byOp, i, c.key)
    requires OpPart(StateFor(nodes, base), cs, byOp, i).Ok? && OpPart(StateFor(nodes, base), cs, byOp, i).value != []
    ensures Landed(Linkage(base + batch, c.key), c)
  {
    hide OpLines, Linkage, FoldOf, EidSet, KeyOf, Ran;
    var st, op, lines := StateFor(nodes, base), cs.ops[i], OpPart(StateFor(nodes, base), cs, byOp, i).value;
    LandedAfterRun(nodes, base, cs, byOp, batch, i, c.key);
    if c.kind != LeafRemoved {
      LandedHash(WithBatch(st, Part(st, cs, byOp, i)), base, cs, op, byOp[op.opId], lines, c);
    }
  }

  /**
   No rework after a partial run: if an operation landed, planning the change it answered against the
   extended journal yields no create, no retarget and no cleanup for the node, whatever the task
   artifact (`status`) says and whatever became of the other operations.
   */
  lemma NoRework(nodes: SpecNodes, declared: set<string>, base: seq<Event>, cs: Changeset, rcs: seq<OpReceipt>, batch: seq<Event>, i: nat,
                 status: map<string, string>, changes: seq<NodeChange>, r: Correlated, graph: Specs, c: NodeChange, a: Action)
    requires Sound(base) && Reconcile(nodes, declared, base, cs, rcs) == Ok(batch) && i < |cs.ops|
    requires Answers(nodes, base, cs.ops[i], c) && Alone(base, cs, ReceiptIndex(rcs), i, c.key)
    requires OpPart(StateFor(nodes, base), cs, ReceiptIndex(rcs), i).Ok? && OpPart(StateFor(nodes, base), cs, ReceiptIndex(rcs), i).value != []
    requires IsCorrelation(changes, FlatMap(Matchable(status), FoldOf(base + batch).entries), r)
    requires c in changes && (forall d :: d in changes && d.key == c.key ==> d == c)
    requires Classified(r, graph).Ok? && a in Classified(r, graph).value && a.node == c.key
    ensures a.kind == ActionObsolete && IsFoldback(c, graph) && c.kind != LeafRemoved
  {
    hide OpLines, Linkage, FoldOf, EidSet, KeyOf, StateFor, OpPart, IsCorrelation, Classified, Answers, Alone, Landed, FullBatch;
    OpLanded(nodes, base, cs, ReceiptIndex(rcs), batch, i, c);
    LandedNotPlanned(base + batch, status, changes, r, graph, c, a);
  }

  /** An epic whose create landed is not created again, even when the proposal is registered anew. */
  lemma EpicNotAgain(nodes: SpecNodes, declared: set<string>, base: seq<Event>, cs: Changeset, rcs: seq<OpReceipt>, batch: seq<Event>, i: nat,
                     status: map<string, string>, registration: string)
    requires Sound(base) && Reconcile(nodes, declared, base, cs, rcs) == Ok(batch) && i < |cs.ops|
    requires cs.ops[i].kind == Create && cs.ops[i].nodeKind == KIND_PROPOSAL_EPIC && Alone(base, cs, ReceiptIndex(rcs), i, cs.ops[i].node)
    requires OpPart(StateFor(nodes, base), cs, ReceiptIndex(rcs), i).Ok? && OpPart(StateFor(nodes, base), cs, ReceiptIndex(rcs), i).value != []
    ensures ResolveEpicAction(cs.ops[i].node, FoldView(FoldOf(base + batch).entries, status), registration) == Ok(None)
  {
    hide OpLines, Linkage, FoldOf, EidSet, StateFor, OpPart, Alone, FullBatch, FoldView;
    LandedAfterRun(nodes, base, cs, ReceiptIndex(rcs), batch, i, cs.ops[i].node);
    ViewIsLinkage(base + batch, status, cs.ops[i].node);
  }

  // ---- label and event ----

  function LabelOf(op: Op): Option<string> {
    if op.kind == Retarget then if |op.labels| == 1 then Some(op.labels[0]) else None else op.idemLabel
  }

  /** The profile gives no node type the name of one of the two built-in kinds, and retargets are not cleanups. */
  predicate PlainAction(a: Action, proposal: string) {
    && (a.nodeType == KIND_PROPOSAL_EPIC ==> a.node == proposal && a.kind == ActionCreate)
    && (a.nodeType == KIND_CLEANUP ==> IsCleanup(a))
    && (a.kind == ActionRetarget ==> !IsCleanup(a))
  }

  /** Planner and ingest look at the same journal under the same head. */
  ghost predicate SameJournal(journal: seq<Event>, status: map<string, string>, s: Setting, st: BuilderState, cs: Changeset) {
    && s.fold == FoldView(FoldOf(journal).entries, status)
    && s.registration == PlanIngest.Registration(journal, s.proposal)
    && st.fold == FoldOf(journal) && st.registered == RegisteredBy(journal)
    && cs.gitHead == s.gitHead
  }

  ghost predicate Names(tag: Option<string>, e: Event) {
    e.Receipt? && e.referent.For? && tag == Some(LABEL_PREFIX + e.referent.target)
  }

  lemma EpicLabel(journal: seq<Event>, status: map<string, string>, s: Setting, st: BuilderState, cs: Changeset, a: Action, op: Op,
                  opId: string, rc: OpReceipt, e: Event)
    requires SameJournal(journal, status, s, st, cs) && a.nodeType == KIND_PROPOSAL_EPIC && a.node == s.proposal && op.node == a.node
    requires Ok(op.idemLabel) == SomeLabel(LabelFor(s.fold, s.gitHead, a, opId, s.registration))
    requires BuildEpicCreate(st, op, rc).Ok? && e in BuildEpicCreate(st, op, rc).value
    ensures Names(op.idemLabel, e)
  {
  }

  function SomeLabel(r: Result<string, PlanError>): Result<Option<string>, PlanError> {
    if r.Ok? then Ok(Some(r.value)) else Err(r.error)
  }

  lemma CleanupNamed(journal: seq<Event>, status: map<string, string>, s: Setting, st: BuilderState, cs: Changeset, a: Action, op: Op,
                     rc: OpReceipt, e: Event)
    requires DistinctEids(journal) && SameJournal(journal, status, s, st, cs) && op.node == a.node
    requires op.idemLabel == Some(CleanupLabel(s.fold, s.gitHead, a, op.opId))
    requires BuildCleanupCreate(st, cs, op, rc).Ok? && e in BuildCleanupCreate(st, cs, op, rc).value && TaskBearing(e)
    ensures Names(op.idemLabel, e)
  {
    hide FoldView, FoldOf, Linkage;
    ViewIsLinkage(journal, status, a.node);
    KeyLookup(journal, a.node);
    LinkageSourced(journal, a.node);
    RemovedSource(journal, a.node);
  }

  /** A removed entry is sourced from a removal, which carries an eid. */
  lemma RemovedSource(journal: seq<Event>, key: string)
    requires DistinctEids(journal)
    ensures var l := Linkage(journal, key); l.Some? && l.value.removed ==> EidOf(l.value.source) != ""
  {
    LinkageSourced(journal, key);
    RemovedIsRemoval(journal, Index(journal), key, |journal|);
  }

  lemma CreateLabel(journal: seq<Event>, status: map<string, string>, s: Setting, st: BuilderState, cs: Changeset, ctx: Context,
                    a: Action, i: nat, op: Op, rc: OpReceipt, e: Event)
    requires DistinctEids(journal) && SameJournal(journal, status, s, st, cs) && PlainAction(a, s.proposal)
    requires ctx.setting == s && i < |ctx.opIds| && i < |ctx.edges| && CreateOp(ctx, a, i) == Ok(op)
    requires BuildCreate(st, cs, op, rc).Ok? && e in BuildCreate(st, cs, op, rc).value && TaskBearing(e)
    ensures Names(op.idemLabel, e)
  {
    hide SameJournal, DepsOf, ResolveParent, FoldOf, FoldView, BuildCleanupCreate, BuildEpicCreate, DistinctEids, TitleFor, Names;
    CreateOpLabel(ctx, a, i, op);
    if a.nodeType == KIND_PROPOSAL_EPIC {
      EpicLabel(journal, status, s, st, cs, a, op, ctx.opIds[i], rc, e);
    } else if IsCleanup(a) {
      CleanupNamed(journal, status, s, st, cs, a, op, rc, e);
    } else {
      NodeLabel(journal, status, s, st, cs, a, op, rc, e);
    }
  }

  lemma CreateOpLabel(ctx: Context, a: Action, i: nat, op: Op)
    requires i < |ctx.opIds| && i < |ctx.edges| && CreateOp(ctx, a, i) == Ok(op)
    ensures op.opId == ctx.opIds[i] && op.nodeKind == CreateKind(a) && op.node == a.node && op.kind == Create
    ensures var s := ctx.setting; Ok(op.idemLabel) == SomeLabel(LabelFor(s.fold, s.gitHead, a, ctx.opIds[i], s.registration))
  {
    hide DepsOf, ResolveParent, IsCleanup, TitleFor, LabelFor;
  }

  lemma NodeLabel(journal: seq<Event>, status: map<string, string>, s: Setting, st: BuilderState, cs: Changeset, a: Action, op: Op,
                  rc: OpReceipt, e: Event)
    requires SameJournal(journal, status, s, st, cs)
    requires op.idemLabel == Some(LABEL_PREFIX + DeriveEid(s.gitHead, op.opId))
    requires BuildNodeCreate(st, cs, op, rc).Ok? && e in BuildNodeCreate(st, cs, op, rc).value && TaskBearing(e)
    ensures Names(op.idemLabel, e)
  {
    hide FoldOf, FoldView;
  }

  lemma RetargetLabel(journal: seq<Event>, status: map<string, string>, s: Setting, st: BuilderState, cs: Changeset, ctx: Context,
                      a: Action, op: Op, e: Event)
    requires SameJournal(journal, status, s, st, cs) && ctx.setting == s && RetargetOp(ctx, a) == Ok(op)
    requires a.nodeType != KIND_PROPOSAL_EPIC && !IsCleanup(a)
    requires BuildRetarget(st, cs, op).Ok? && e in BuildRetarget(st, cs, op).value && TaskBearing(e)
    ensures Names(LabelOf(op), e)
  {
    hide FoldOf, FoldView, DepsOf, IsCleanup;
  }

  /** Closes produce no task-bearing line. */
  lemma CloseSilent(st: BuilderState, cs: Changeset, op: Op, rc: OpReceipt, e: Event)
    requires op.kind == Close && OpLines(st, cs, op, rc).Ok? && e in OpLines(st, cs, op, rc).value
    ensures !TaskBearing(e)
  {
  }

  lemma OkLines(st: BuilderState, cs: Changeset, op: Op, rc: OpReceipt, e: Event)
    requires OpLines(st, cs, op, rc).Ok? && e in OpLines(st, cs, op, rc).value
    ensures op.kind == Create ==> OpLines(st, cs, op, rc) == BuildCreate(st, cs, op, rc)
    ensures op.kind == Retarget ==> OpLines(st, cs, op, rc) == BuildRetarget(st, cs, op)
  {
    hide BuildCreate, BuildClose, BuildRetarget;
  }

  /**
   Label and event are one fact: for every task_created or task_retargeted line ingest builds from an
   operation of the changeset, over the journal it was planned against, the label on the operation is
   "spex:" and the eid the line answers.
   */
  lemma LabelIsEvent(journal: seq<Event>, status: map<string, string>, s: Setting, st: BuilderState, actions: seq<Action>, cs: Changeset,
                     i: nat, rc: OpReceipt, e: Event)
    requires DistinctEids(journal) && SameJournal(journal, status, s, st, cs)
    requires L.Built(s, actions, cs) && (forall a :: a in actions ==> PlainAction(a, s.proposal)) && i < |cs.ops|
    requires OpLines(st, cs, cs.ops[i], rc).Ok? && e in OpLines(st, cs, cs.ops[i], rc).value && TaskBearing(e)
    ensures Names(LabelOf(cs.ops[i]), e)
  {
    hide SameJournal, DistinctEids, OpLines, L.Built, L.Parts, CreateOp, RetargetOp, TaskBearing, Names, PlainAction;
    var epic, sorted := L.BuiltParts(s, actions, cs);
    L.PlacedParts(s, actions, cs, epic, sorted);
    L.OpCount(s, actions, cs, epic, sorted);
    OkLines(st, cs, cs.ops[i], rc, e);
    var retargets := OfKind(actions, ActionRetarget);
    if i < |sorted| {
      L.CreateIs(s, actions, cs, epic, sorted, i);
      L.CreateAt(s, actions, cs, epic, sorted, i);
      SortedPlain(s, actions, cs, epic, sorted, i);
      CreateLabel(journal, status, s, st, cs, ContextOf(s, sorted, retargets), sorted[i], i, cs.ops[i], rc, e);
      assert LabelOf(cs.ops[i]) == cs.ops[i].idemLabel;
    } else {
      LaterLabel(journal, status, s, st, actions, cs, epic, sorted, i, rc, e);
    }
  }

  lemma SortedPlain(s: Setting, actions: seq<Action>, cs: Changeset, epic: Option<Action>, sorted: seq<Action>, i: nat)
    requires L.Parts(s, actions, cs, epic, sorted) && i < |sorted|
    requires forall a :: a in actions ==> PlainAction(a, s.proposal)
    ensures PlainAction(sorted[i], s.proposal)
  {
    hide SortOutcome, Composed, PlainAction;
    L.SortedParts(s, actions, cs, epic, sorted);
    assert sorted[i] in multiset(BatchWithEpic(epic, actions));
    if epic.Some? {
      EpicPlain(s, epic.value);
    }
  }

  lemma EpicPlain(s: Setting, a: Action)
    requires ResolveEpicAction(s.proposal, s.fold, s.registration) == Ok(Some(a))
    ensures PlainAction(a, s.proposal)
  {
  }

  lemma LaterLabel(journal: seq<Event>, status: map<string, string>, s: Setting, st: BuilderState, actions: seq<Action>, cs: Changeset,
                   epic: Option<Action>, sorted: seq<Action>, i: nat, rc: OpReceipt, e: Event)
    requires DistinctEids(journal) && SameJournal(journal, status, s, st, cs)
    requires L.Parts(s, actions, cs, epic, sorted) && (forall a :: a in actions ==> PlainAction(a, s.proposal)) && |sorted| <= i < |cs.ops|
    requires OpLines(st, cs, cs.ops[i], rc).Ok? && e in OpLines(st, cs, cs.ops[i], rc).value && TaskBearing(e)
    ensures Names(LabelOf(cs.ops[i]), e)
  {
    hide SameJournal, DistinctEids, OpLines, L.Parts, CreateOp, TaskBearing, Names, BuildRetarget, LabelFor, DepsOf;
    L.PlacedParts(s, actions, cs, epic, sorted);
    L.OpOf(s, actions, cs, epic, sorted, i);
    OkLines(st, cs, cs.ops[i], rc, e);
    var retargets := OfKind(actions, ActionRetarget);
    if i < |sorted| + |retargets| {
      var a := retargets[i - |sorted|];
      assert a in retargets;
      RetargetLabel(journal, status, s, st, cs, ContextOf(s, sorted, retargets), a, cs.ops[i], e);
    } else {
      CloseSilent(st, cs, cs.ops[i], rc, e);
    }
  }

  // ---- absorbed entries ----

  lemma AbsorbedEidInjective(x: AbsorbedEntry, y: AbsorbedEntry)
    requires IsHash(x.node) && IsHash(y.node)
    ensures AbsorbedEid(x) == AbsorbedEid(y) ==> x.node == y.node
  {
    assert AbsorbedEid(x)[8..20] == x.node && AbsorbedEid(y)[8..20] == y.node;
  }

  lemma AbsorbedEidOf(changes: seq<NodeChange>, x: AbsorbMark, y: AbsorbMark)
    requires IsHash(x.node) && IsHash(y.node)
    ensures AbsorbedEid(AbsorbedBy(changes, x)) == AbsorbedEid(AbsorbedBy(changes, y)) <==> x.node == y.node
  {
    AbsorbedEidInjective(AbsorbedBy(changes, x), AbsorbedBy(changes, y));
  }

  /**
   The builder does not see its own absorbed lines, so eids stay distinct exactly when no node is marked
   twice; nothing in the plan refuses a second mark.
   */
  lemma AbsorbedDistinctExactly(marks: seq<AbsorbMark>, changes: seq<NodeChange>, w: Withheld, cs: Changeset)
    requires AbsorbOutcome(marks, changes, Ok(w)) && cs.absorbed == w.absorbed
    ensures S.DistinctAbsorbed(cs) <==> forall i, j :: 0 <= i < j < |marks| ==> marks[i].node != marks[j].node
  {
    hide AbsorbedEid, AbsorbedBy;
    forall i, j | 0 <= i < j < |marks|
      ensures AbsorbedEid(cs.absorbed[i]) == AbsorbedEid(cs.absorbed[j]) <==> marks[i].node == marks[j].node
    {
      assert MarkError(changes, marks[i]) == None && MarkError(changes, marks[j]) == None;
      AbsorbedEidOf(changes, marks[i], marks[j]);
    }
    if S.DistinctAbsorbed(cs) {
      forall i, j | 0 <= i < j < |marks|
        ensures marks[i].node != marks[j].node
      {
        assert AbsorbedEid(cs.absorbed[i]) != AbsorbedEid(cs.absorbed[j]);
      }
    }
  }

  lemma OneChange(changes: seq<NodeChange>, c: NodeChange)
    requires P.DistinctKeys(changes) && c in changes
    ensures ChangeOf(changes, c.key) == Some(c)
  {
    assert ChangeOf(changes, c.key).Some?;
  }

  predicate Absorbs(x: AbsorbedEntry, c: NodeChange) {
    x.node == c.key && x.before == c.oldHash && x.after == c.newHash
  }

  /** Marks conserve the diff: what is withheld is exactly the marked nodes' modifications, each carried by an entry. */
  lemma AbsorbConserves(marks: seq<AbsorbMark>, changes: seq<NodeChange>, w: Withheld, c: NodeChange)
    requires AbsorbOutcome(marks, changes, Ok(w)) && P.DistinctKeys(changes) && c in changes
    ensures c in w.remaining <==> c.key !in MarkedNodes(marks)
    ensures c in w.remaining || (c.kind == LeafModified && exists x :: x in w.absorbed && Absorbs(x, c))
  {
    FlatMapMember(Unmarked(MarkedNodes(marks)), changes, c);
    hide IsHash, P.DistinctKeys;
    if c.key in MarkedNodes(marks) {
      var m :| m in marks && m.node == c.key;
      var k :| 0 <= k < |marks| && marks[k] == m;
      assert MarkError(changes, m) == None;
      OneChange(changes, c);
      assert w.absorbed[k] == AbsorbedBy(changes, m);
      assert w.absorbed[k] in w.absorbed;
    }
  }

  // ---- what planning hands to ingest ----

  /** The profile's type names have no dash and none of the names ingest and the op ids reserve. */
  predicate PlainType(nodeType: string) {
    '-' !in nodeType && nodeType != KIND_PROPOSAL_EPIC && nodeType != KIND_CLEANUP && nodeType != "retarget" && nodeType != "close"
  }

  ghost predicate PlainTypes(changes: seq<NodeChange>) {
    forall c :: c in changes ==> PlainType(c.nodeType)
  }

  /** An action is fit for the builder, and a close or retarget names the task of its node's pairing. */
  ghost predicate Fit(pairings: seq<Pairing>, a: Action) {
    && PlainType(a.nodeType) && (a.kind == ActionRetarget ==> !IsCleanup(a))
    && (a.kind != ActionCreate ==> exists rec :: rec in pairings && rec.node == a.node && rec.task == a.task)
  }

  lemma RecordActionFit(c: NodeChange, graph: Specs, rec: Pairing, a: Action)
    requires a in RecordActions(c, graph)(rec) && PlainType(c.nodeType)
    ensures a.node == c.key && (a.kind != ActionCreate ==> a.task == rec.task) && a.nodeType == c.nodeType
    ensures a.kind == ActionRetarget ==> !IsCleanup(a)
  {
    assert IsCleanup(a) ==> a.reason[0] == CLEANUP_REASON[0];
    assert a.kind == ActionRetarget ==> a.reason[0] == 'S';
  }

  lemma MatchFit(changes: seq<NodeChange>, pairings: seq<Pairing>, graph: Specs, a: Action)
    requires PlainTypes(changes) && a in FlatMap(MatchActions(graph), FlatMap(MatchOf(pairings), changes))
    ensures Fit(pairings, a)
  {
    hide RecordActions, PlainType, MatchActions, MatchOf, IsCleanup;
    var c, rec := MatchSource(changes, pairings, graph, a);
    RecordActionFit(c, graph, rec, a);
    FlatMapMember(WithNode(c.key), pairings, rec);
  }

  lemma OrphanActionFit(o: Orphaned, a: Action)
    requires a in OrphanActions()(o)
    ensures a.nodeType == o.nodeType && a.node == o.record.node && a.kind != ActionRetarget
    ensures a.kind != ActionCreate ==> a.task == o.record.task
  {
  }

  lemma OrphanFit(changes: seq<NodeChange>, pairings: seq<Pairing>, o: Orphaned, a: Action)
    requires PlainTypes(changes) && o in FlatMap(OrphansOf(pairings), changes) && a in OrphanActions()(o)
    ensures Fit(pairings, a)
  {
    hide PlainType, OrphanActions, IsCleanup;
    OrphanActionFit(o, a);
    FlatMapMember(OrphansOf(pairings), changes, o);
    var d :| d in changes && o in OrphansOf(pairings)(d);
    FlatMapMember(AsOrphan(d.nodeType), Records(pairings, d.key), o);
    FlatMapMember(WithNode(d.key), pairings, o.record);
  }

  lemma UnmatchedFit(changes: seq<NodeChange>, pairings: seq<Pairing>, graph: Specs, a: Action)
    requires PlainTypes(changes) && a in FlatMap(UnmatchedActions(graph), FlatMap(UnmatchedOf(pairings), changes))
    ensures Fit(pairings, a)
  {
    hide PlainType, IsCleanup;
    var unmatched := FlatMap(UnmatchedOf(pairings), changes);
    FlatMapMember(UnmatchedActions(graph), unmatched, a);
    var u :| u in unmatched && a in UnmatchedActions(graph)(u);
    FlatMapMember(UnmatchedOf(pairings), changes, u);
  }

  lemma RawFit(changes: seq<NodeChange>, pairings: seq<Pairing>, r: Correlated, graph: Specs, a: Action)
    requires IsCorrelation(changes, pairings, r) && PlainTypes(changes) && a in RawActions(r, graph)
    ensures Fit(pairings, a)
  {
    hide Fit, PlainType, MatchActions, OrphanActions, UnmatchedActions, OrphansOf;
    if a in FlatMap(MatchActions(graph), r.matches) {
      MatchFit(changes, pairings, graph, a);
    } else if a in FlatMap(OrphanActions(), r.orphaned) {
      FlatMapMember(OrphanActions(), r.orphaned, a);
      var o :| o in r.orphaned && a in OrphanActions()(o);
      OrphanFit(changes, pairings, o, a);
    } else {
      UnmatchedFit(changes, pairings, graph, a);
    }
  }

  lemma ClassifiedFit(changes: seq<NodeChange>, pairings: seq<Pairing>, r: Correlated, graph: Specs, a: Action)
    requires IsCorrelation(changes, pairings, r) && PlainTypes(changes) && Classified(r, graph).Ok? && a in Classified(r, graph).value
    ensures Fit(pairings, a)
  {
    hide RawActions, Claims, Classified, PlainType;
    var raw := ClassifiedFrom(r, graph, a);
    RawFit(changes, pairings, r, graph, raw);
  }

  /** The planner's actions keep what the builder's op ids rest on. */
  lemma ClassifiedKeyed(changes: seq<NodeChange>, pairings: seq<Pairing>, r: Correlated, graph: Specs)
    requires P.DistinctKeys(changes) && P.OnePerNode(pairings) && IsCorrelation(changes, pairings, r) && PlainTypes(changes)
    requires Classified(r, graph).Ok?
    ensures L.Keyed(Classified(r, graph).value)
  {
    hide Classified, IsCorrelation;
    var actions := Classified(r, graph).value;
    P.ClassifiedDistinct(changes, pairings, r, graph);
    forall a | a in actions
      ensures Fit(pairings, a)
    {
      ClassifiedFit(changes, pairings, r, graph, a);
    }
    forall i, j | 0 <= i < j < |actions| && actions[i].kind == ActionObsolete && actions[j].kind == ActionObsolete
      ensures actions[i].task != actions[j].task
    {
      assert actions[i] in actions && actions[j] in actions;
      var x :| x in pairings && x.node == actions[i].node && x.task == actions[i].task;
      var y :| y in pairings && y.node == actions[j].node && y.task == actions[j].task;
      assert x.node != y.node;
    }
  }

  lemma {:induction false} OfKindDistinct(actions: seq<Action>, kind: ActionType)
    requires DistinctIds(actions)
    ensures DistinctIds(OfKind(actions, kind))
  {
    if actions != [] {
      var init, last := actions[..|actions| - 1], actions[|actions| - 1];
      OfKindDistinct(init, kind);
      forall a | a in OfKind(init, kind)
        ensures a.node != last.node
      {
        var i :| 0 <= i < |init| && init[i] == a;
        assert actions[i] == a;
      }
    }
  }

  /** The batch of a planned run names each node once, the epic included. */
  lemma BatchDistinct(s: Setting, actions: seq<Action>, epic: Option<Action>)
    requires DistinctIds(actions) && (forall a :: a in actions ==> a.node != s.proposal)
    requires ResolveEpicAction(s.proposal, s.fold, s.registration) == Ok(epic)
    ensures DistinctIds(BatchWithEpic(epic, actions))
  {
    OfKindDistinct(actions, ActionCreate);
    var creates, batch := OfKind(actions, ActionCreate), BatchWithEpic(epic, actions);
    forall i, j | 0 <= i < j < |batch|
      ensures batch[i].node != batch[j].node
    {
      if epic.Some? {
        assert batch[j] == creates[j - 1] && batch[j] in creates;
        assert i > 0 ==> batch[i] == creates[i - 1];
      }
    }
  }

  /**
   From diff to ingest: a changeset planned from a diff over a fold is what ingest and the runs of the
   protocol expect: op ids prefixed and distinct, absorbed eids distinct, a plain head.
   */
  lemma PlannedIsWellFormed(changes: seq<NodeChange>, pairings: seq<Pairing>, r: Correlated, graph: Specs, s: Setting, cs: Changeset,
                            nodes: SpecNodes, declared: set<string>, rcs: seq<OpReceipt>)
    requires P.DistinctKeys(changes) && P.OnePerNode(pairings) && IsCorrelation(changes, pairings, r) && PlainTypes(changes)
    requires Classified(r, graph).Ok? && (forall a :: a in Classified(r, graph).value ==> a.node != s.proposal)
    requires BuildOutcome(s, Classified(r, graph).value, Ok(cs)) && Protocol.PlainHead(s.gitHead) && S.DistinctAbsorbed(cs)
    ensures Protocol.WellFormed(Protocol.IngestStep(nodes, declared, cs, rcs))
    ensures forall i, j :: 0 <= i < j < |cs.ops| ==> cs.ops[i].opId != cs.ops[j].opId
  {
    hide Classified, IsCorrelation, PlainTypes, L.Keyed, BuildOutcome, S.DistinctAbsorbed;
    var actions := Classified(r, graph).value;
    P.ClassifiedDistinct(changes, pairings, r, graph);
    ClassifiedKeyed(changes, pairings, r, graph);
    var epic := ResolveEpicAction(s.proposal, s.fold, s.registration);
    if epic.Ok? {
      BatchDistinct(s, actions, epic.value);
    }
    forall i, j | 0 <= i < j < |cs.ops|
      ensures cs.ops[i].opId != cs.ops[j].opId
    {
      L.OpIdsDistinct(s, actions, cs, i, j);
    }
    forall op | op in cs.ops
      ensures "op-" <= op.opId
    {
      var i :| 0 <= i < |cs.ops| && cs.ops[i] == op;
      L.OpIdPrefixed(s, actions, cs, i);
    }
    L.BuiltHead(s, actions, cs);
  }

  /**
   The whole plan is a function of sets: permuting the changes and the pairings gives the same changeset,
   or the same refusal.
   */
  lemma PlanCanonical(a: seq<NodeChange>, p: seq<Pairing>, r: Correlated, b: seq<NodeChange>, q: seq<Pairing>, t: Correlated, graph: Specs,
                      s: Setting, x: Result<Changeset, BuildError>, y: Result<Changeset, BuildError>)
    requires P.DistinctKeys(a) && P.OnePerNode(p) && multiset(a) == multiset(b) && multiset(p) == multiset(q)
    requires IsCorrelation(a, p, r) && IsCorrelation(b, q, t)
    requires Classified(r, graph).Ok? && (forall c :: c in Classified(r, graph).value ==> c.node != s.proposal)
    requires BuildOutcome(s, Classified(r, graph).value, x)
    requires Classified(t, graph).Ok? ==> BuildOutcome(s, Classified(t, graph).value, y)
    ensures Classified(t, graph).Ok? && x == y
  {
    hide Classified, IsCorrelation, BuildOutcome;
    P.PlanningCanonical(a, p, r, b, q, t, graph);
    P.ClassifiedDistinct(a, p, r, graph);
    var actions := Classified(r, graph).value;
    var epic := ResolveEpicAction(s.proposal, s.fold, s.registration);
    if epic.Ok? {
      BatchDistinct(s, actions, epic.value);
    }
    L.BuildDeterministic(s, actions, x, y);
  }
}
