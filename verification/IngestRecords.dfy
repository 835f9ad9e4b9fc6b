/**
 What an ingest run writes down, operation by operation: the events and receipts of the
 batch in terms of the journal, the spec, the changeset and the receipts.
 */
module IngestRecords {
  import opened Results
  import opened Order
  import opened PlanTypes
  import opened Journal
  import opened FoldSpec
  import opened JournalGrowth
  import opened EventBuilder
  import opened InvariantChecker
  import opened Reconciler
  import opened IngestLaws

  // ---- what the journal knows ----

  /** The last hash the journal has for a node; none for a node it does not know or knows as removed. */
  function LastHash(journal: seq<Event>, node: string): Option<string> {
    match Linkage(journal, node)
    case Some(FoldEntry(_, _, _, Change(_, _, _, _, _, _, _, after, _, _, _), _)) => after
    case _ => None
  }

  /** The linkage whose task is `task`; of several, the one that stands first. */
  ghost predicate Carrier(journal: seq<Event>, task: string, e: FoldEntry) {
    && Linkage(journal, e.key) == Some(e) && e.task == task
    && forall x: FoldEntry :: Linkage(journal, x.key) == Some(x) && x.task == task ==> e.line <= x.line
  }

  ghost predicate NoCarrier(journal: seq<Event>, task: string) {
    forall x: FoldEntry :: Linkage(journal, x.key) == Some(x) ==> x.task != task
  }

  /** The proposal's last registration in the journal carries the eid. */
  ghost predicate Registration(journal: seq<Event>, p: string, eid: string) {
    exists i :: RegistersAt(journal, i, p, eid) && forall j, x :: RegistersAt(journal, j, p, x) ==> j <= i
  }

  // ---- what one operation writes ----

  /** What a change event takes over from the run. */
  ghost predicate OfRun(cs: Changeset, op: Op, e: Event) {
    e.Change? && e.eid == cs.gitHead + ":" + op.opId && e.gitHead == cs.gitHead && e.proposal == cs.proposal
  }

  /** An event for a node the spec still has. */
  ghost predicate Describes(e: Event, md: NodeMetadata, node: string, name: string, nodeType: string, before: Option<string>, after: string) {
    && e.Change? && e.node == node && e.mod == md.mod && e.path == md.contentFile
    && e.name == (if md.component != "" then md.component else name)
    && e.nodeType == (if md.nodeType != "" then md.nodeType else nodeType)
    && e.before == before && e.after == Some(after)
  }

  /** The removal of a node the spec no longer has: what the journal last said of it. */
  ghost predicate Buries(e: Event, entry: FoldEntry) {
    && e.Change? && e.change == Removed && e.node == entry.key && e.after == None
    && (match entry.source
        case Change(_, _, _, name, nodeType, mod, _, after, _, _, path) =>
          e.name == name && e.nodeType == nodeType && e.mod == mod && e.before == after && e.path == path
        case _ => e.name == "" && e.nodeType == "" && e.mod == "" && e.before == None && e.path == "")
  }

  /** A change event and its receipt. */
  ghost predicate TwoLines(lines: seq<Event>, kind: ReceiptKind, task: string) {
    |lines| == 2 && lines[0].Change? && lines[1] == Receipt(kind, task, For(lines[0].eid))
  }

  ghost predicate SingleLine(lines: seq<Event>, task: string, eid: string) {
    lines == [Receipt(TaskCreated, task, For(eid))]
  }

  ghost predicate NodeCreateSays(nodes: SpecNodes, journal: seq<Event>, cs: Changeset, op: Op, rc: OpReceipt, r: Lines) {
    if op.node !in nodes then
      r == Err(NoMetadata(op.node))
    else
      var md, last := nodes[op.node], LastHash(journal, op.node);
      && r.Ok? && TwoLines(r.value, TaskCreated, rc.task) && OfRun(cs, op, r.value[0])
      && Describes(r.value[0], md, op.node, op.title, op.nodeKind, last, md.specHash)
      && (last.None? ==> r.value[0].change == Added) && (last.Some? ==> r.value[0].change == Modified)
  }

  ghost predicate EpicCreateSays(journal: seq<Event>, op: Op, rc: OpReceipt, r: Lines) {
    if Linkage(journal, op.node).Some? then r == Ok([])
    else if exists eid :: Registration(journal, op.node, eid) then
      exists eid :: Registration(journal, op.node, eid) && r.Ok? && SingleLine(r.value, rc.task, eid)
    else r == Err(NotRegistered(op.opId))
  }

  /** `known`: the journal or the batch carries the operation's eid. */
  ghost predicate CleanupSays(journal: seq<Event>, known: bool, cs: Changeset, op: Op, rc: OpReceipt, r: Lines) {
    match Linkage(journal, op.node)
    case None => r == Err(NoJournalEntry(op.opId))
    case Some(entry) =>
      if entry.source.Change? && entry.source.change == Removed then
        if entry.task != "" then r == Ok([]) else r.Ok? && SingleLine(r.value, rc.task, entry.source.eid)
      else if known then r == Ok([])
      else r.Ok? && TwoLines(r.value, TaskCreated, rc.task) && OfRun(cs, op, r.value[0]) && Buries(r.value[0], entry)
  }

  ghost predicate RemovedCloseSays(journal: seq<Event>, cs: Changeset, op: Op, rc: OpReceipt, task: string, r: Lines) {
    if NoCarrier(journal, task) then
      r == Err(NoJournalEntry(op.opId))
    else
      exists entry :: Carrier(journal, task, entry) &&
        r.Ok? && TwoLines(r.value, TaskClosed, rc.task) && OfRun(cs, op, r.value[0]) && Buries(r.value[0], entry)
  }

  ghost predicate FoldedCloseSays(nodes: SpecNodes, journal: seq<Event>, cs: Changeset, op: Op, rc: OpReceipt, task: string, r: Lines) {
    if NoCarrier(journal, task) then
      r == Err(NoJournalEntry(op.opId))
    else
      exists entry :: Carrier(journal, task, entry) &&
        if entry.key !in nodes then
          r == Err(NoMetadata(entry.key))
        else
          && r.Ok? && TwoLines(r.value, TaskClosed, rc.task) && OfRun(cs, op, r.value[0]) && r.value[0].change == Modified
          && Describes(r.value[0], nodes[entry.key], entry.key, if entry.source.Change? then entry.source.name else "",
                       if entry.source.Change? then entry.source.nodeType else "", LastHash(journal, entry.key), nodes[entry.key].specHash)
  }

  ghost predicate RetargetSays(nodes: SpecNodes, journal: seq<Event>, cs: Changeset, op: Op, task: string, r: Lines) {
    if op.node !in nodes then
      r == Err(NoMetadata(op.node))
    else
      && r.Ok? && TwoLines(r.value, TaskRetargeted, task) && OfRun(cs, op, r.value[0]) && r.value[0].change == Modified
      && Describes(r.value[0], nodes[op.node], op.node, "", "", LastHash(journal, op.node), op.hash)
  }

  /** An operation that names the task it acts on. */
  ghost predicate NamesTask(op: Op, task: string) {
    op.target == Some(TaskRef(task)) && task != ""
  }

  /** What an operation with an ok receipt writes; `known` as above. */
  ghost predicate LandedSays(nodes: SpecNodes, journal: seq<Event>, known: bool, cs: Changeset, op: Op, rc: OpReceipt, r: Lines) {
    if op.kind == Create then
      if op.nodeKind == "proposal_epic" then EpicCreateSays(journal, op, rc, r)
      else if op.nodeKind == "cleanup" then CleanupSays(journal, known, cs, op, rc, r)
      else if known then r == Ok([])
      else NodeCreateSays(nodes, journal, cs, op, rc, r)
    else
      var removed, modified := "Spec node removed" <= op.reason, "Spec node modified" <= op.reason;
      if op.kind == Close && !removed && !modified then r == Ok([])
      else if forall task :: !NamesTask(op, task) then r == Err(BadTarget(op.opId))
      else if known then r == Ok([])
      else
        exists task :: NamesTask(op, task) &&
          if op.kind == Retarget then RetargetSays(nodes, journal, cs, op, task, r)
          else if removed then RemovedCloseSays(journal, cs, op, rc, task, r)
          else FoldedCloseSays(nodes, journal, cs, op, rc, task, r)
  }

  /** What one operation writes after the lines `sofar`, or why it stops the run. */
  ghost predicate OpSays(nodes: SpecNodes, journal: seq<Event>, sofar: seq<Event>, cs: Changeset, op: Op, rc: OpReceipt, r: Lines) {
    if op.kind == UnknownOp then r == Err(UnknownType(op.opId))
    else if rc.status == StatusUnknown then r == Err(UnknownStatus(op.opId))
    else if rc.status == StatusOk then
      LandedSays(nodes, journal, Carried(journal + sofar, cs.gitHead + ":" + op.opId), cs, op, rc, r)
    else r == Ok([])
  }

  // ---- what a run writes ----

  ghost predicate OnePerOp(rcs: seq<OpReceipt>) {
    forall i, j :: 0 <= i < j < |rcs| ==> rcs[i].opId != rcs[j].opId
  }

  ghost predicate EachAnswered(cs: Changeset, rcs: seq<OpReceipt>) {
    forall op :: op in cs.ops ==> exists rc :: rc in rcs && rc.opId == op.opId
  }

  ghost predicate EachAsked(cs: Changeset, rcs: seq<OpReceipt>) {
    forall rc :: rc in rcs ==> exists op :: op in cs.ops && rc.opId == op.opId
  }

  /** Operation i's lines stand between its cut and the next, and they are what its receipt calls for. */
  ghost predicate PieceSays(nodes: SpecNodes, journal: seq<Event>, cs: Changeset, rcs: seq<OpReceipt>, batch: seq<Event>, at: seq<nat>, i: nat) {
    && i + 1 < |at| && i < |cs.ops| && at[i] <= at[i + 1] <= |batch|
    && exists rc :: rc in rcs && rc.opId == cs.ops[i].opId &&
         OpSays(nodes, journal, batch[..at[i]], cs, cs.ops[i], rc, Ok(batch[at[i]..at[i + 1]]))
  }

  /** The first n operations wrote the lines up to the last cut. */
  ghost predicate PiecesSay(nodes: SpecNodes, journal: seq<Event>, cs: Changeset, rcs: seq<OpReceipt>, batch: seq<Event>, at: seq<nat>, n: nat) {
    && |at| == n + 1 && at[0] == 0 && at[n] <= |batch|
    && forall i :: 0 <= i < n ==> PieceSays(nodes, journal, cs, rcs, batch, at, i)
  }

  function MarkEid(entry: AbsorbedEntry): string {
    "refresh:" + entry.node + ":" + entry.before + ":" + entry.after
  }

  /** The absorbed entries neither journal nor batch tell of, in their order. */
  ghost predicate Untold(known: seq<Event>, cs: Changeset, taken: seq<nat>) {
    && (forall i, j :: 0 <= i < j < |taken| ==> taken[i] < taken[j])
    && forall k: nat :: k in taken <==> k < |cs.absorbed| && !Carried(known, MarkEid(cs.absorbed[k]))
  }

  ghost predicate MarkSays(nodes: SpecNodes, cs: Changeset, entry: AbsorbedEntry, e: Event) {
    && entry.node in nodes && Describes(e, nodes[entry.node], entry.node, "", "", Some(entry.before), entry.after)
    && e.change == Modified && e.eid == MarkEid(entry) && e.gitHead == cs.gitHead && e.proposal == cs.proposal
  }

  /** One event for each of them, and one receipt that names their eids when there are any. */
  ghost predicate MarksSay(nodes: SpecNodes, known: seq<Event>, cs: Changeset, lines: seq<Event>) {
    exists taken: seq<nat> :: Untold(known, cs, taken) &&
      if taken == [] then lines == []
      else
        var n := |taken|;
        && |lines| == n + 1
        && (forall i :: 0 <= i < n ==> taken[i] < |cs.absorbed| && MarkSays(nodes, cs, cs.absorbed[taken[i]], lines[i]))
        && lines[n].Refresh? && lines[n].gitHead == cs.gitHead && |lines[n].absorbed| == n
        && forall i :: 0 <= i < n ==> lines[n].absorbed[i] == MarkEid(cs.absorbed[taken[i]])
  }

  /** The first of them that the spec does not know stops the run. */
  ghost predicate MarkStops(nodes: SpecNodes, known: seq<Event>, cs: Changeset, e: IngestError) {
    exists k :: 0 <= k < |cs.absorbed| && cs.absorbed[k].node !in nodes && !Carried(known, MarkEid(cs.absorbed[k]))
                && e == NoMetadata(cs.absorbed[k].node)
                && forall j :: 0 <= j < k ==> cs.absorbed[j].node in nodes || Carried(known, MarkEid(cs.absorbed[j]))
  }

  /** Two receipts pair the same event or, creating tasks, the same proposal. */
  ghost predicate PairedTwice(events: seq<Event>) {
    exists i, j :: 0 <= i < j < |events| && events[i].Receipt? && events[j].Receipt? && events[i].receipt == events[j].receipt
      && events[i].referent == events[j].referent && events[i].referent != For("")
      && (events[i].receipt == TaskCreated || (events[i].receipt == TaskRetargeted && events[i].referent.For?))
  }

  /** The line names an eid nobody carries. */
  ghost predicate NamesNobody(known: seq<Event>, e: Event) {
    match e
    case Receipt(_, _, For(t)) => t != "" && !Carried(known, t)
    case Refresh(_, absorbed) => exists a :: a in absorbed && (a == "" || !Carried(known, a))
    case _ => false
  }

  ghost predicate NamesUnknown(journal: seq<Event>, batch: seq<Event>) {
    exists e :: e in batch && NamesNobody(journal + batch, e)
  }

  /** Twelve lower-case hex digits. */
  ghost predicate NodeId(s: string) {
    |s| == 12 && forall i :: 0 <= i < |s| ==> '0' <= s[i] <= '9' || 'a' <= s[i] <= 'f'
  }

  /** A lower-case letter, then lower-case letters, digits and underscores. */
  ghost predicate TypeName(s: string) {
    s != "" && 'a' <= s[0] <= 'z' && forall i :: 0 < i < |s| ==> 'a' <= s[i] <= 'z' || '0' <= s[i] <= '9' || s[i] == '_'
  }

  /** What can be wrong with a line. */
  ghost predicate Faulty(declared: set<string>, e: Event) {
    || (e.Change? && (e.eid == "" || !NodeId(e.node) || !TypeName(e.nodeType) || e.nodeType !in declared))
    || (e.Registered? && (e.eid == "" || e.proposal == ""))
    || (e.Receipt? && (e.task == "" || e.referent == For("") || e.referent == Slug("") || (e.receipt == TaskRetargeted && e.referent.Slug?)))
    || (e.Refresh? && "" in e.absorbed)
  }

  ghost predicate HasBadLine(declared: set<string>, batch: seq<Event>) {
    exists e :: e in batch && Faulty(declared, e)
  }

  ghost predicate WholeSays(nodes: SpecNodes, journal: seq<Event>, cs: Changeset, rcs: seq<OpReceipt>, batch: seq<Event>, at: seq<nat>) {
    && PiecesSay(nodes, journal, cs, rcs, batch, at, |cs.ops|)
    && MarksSay(nodes, journal + batch[..at[|cs.ops|]], cs, batch[at[|cs.ops|]..])
  }

  /** The operations before number n wrote their lines; it, or after all of them an absorbed entry, stops the run. */
  ghost predicate Stops(nodes: SpecNodes, journal: seq<Event>, cs: Changeset, rcs: seq<OpReceipt>, e: IngestError) {
    exists batch, at: seq<nat>, n: nat :: PiecesSay(nodes, journal, cs, rcs, batch, at, n) && at[n] == |batch| &&
      if n < |cs.ops| then exists rc :: rc in rcs && rc.opId == cs.ops[n].opId && OpSays(nodes, journal, batch, cs, cs.ops[n], rc, Err(e))
      else n == |cs.ops| && MarkStops(nodes, journal + batch, cs, e)
  }

  ghost predicate Refused(declared: set<string>, journal: seq<Event>, batch: seq<Event>, e: IngestError) {
    || (e == DoublePairing && PairedTwice(journal + batch))
    || (e == UnknownReferent && !PairedTwice(journal + batch) && NamesUnknown(journal, batch))
    || (e == BadLine && !PairedTwice(journal + batch) && !NamesUnknown(journal, batch) && HasBadLine(declared, batch))
  }

  ghost predicate RefusalSays(nodes: SpecNodes, declared: set<string>, journal: seq<Event>, cs: Changeset, rcs: seq<OpReceipt>, e: IngestError) {
    if e == DuplicateReceipt then !OnePerOp(rcs)
    else if e == MissingReceipt then OnePerOp(rcs) && !EachAnswered(cs, rcs)
    else if e == ForeignReceipt then OnePerOp(rcs) && EachAnswered(cs, rcs) && !EachAsked(cs, rcs)
    else
      && OnePerOp(rcs) && EachAnswered(cs, rcs) && EachAsked(cs, rcs)
      && (Stops(nodes, journal, cs, rcs, e) ||
          exists batch, at :: WholeSays(nodes, journal, cs, rcs, batch, at) && batch != [] && Refused(declared, journal, batch, e))
  }

  /** The whole answer of a run: the lines it appends, or why it appends none. */
  ghost predicate RunSays(nodes: SpecNodes, declared: set<string>, journal: seq<Event>, cs: Changeset, rcs: seq<OpReceipt>, r: Lines) {
    match r
    case Err(e) => RefusalSays(nodes, declared, journal, cs, rcs, e)
    case Ok(batch) =>
      && OnePerOp(rcs) && EachAnswered(cs, rcs) && EachAsked(cs, rcs)
      && (exists at :: WholeSays(nodes, journal, cs, rcs, batch, at))
      && (batch != [] ==> !PairedTwice(journal + batch) && !NamesUnknown(journal, batch) && !HasBadLine(declared, batch))
  }

  // ---- the proofs ----

  lemma LastHashIs(st: BuilderState, journal: seq<Event>, node: string)
    requires st.fold == FoldOf(journal)
    ensures PriorHash(st, node) == LastHash(journal, node)
  {
    KeyLookup(journal, node);
  }

  /** The first of the entries by line. */
  lemma {:induction false} FirstByTask(entries: seq<FoldEntry>, task: string)
    requires ByLine(entries)
    ensures var e := EntryByTask(entries, task); e.Some? ==> forall x :: x in entries && x.task == task ==> e.value.line <= x.line
  {
    if entries != [] && entries[0].task != task {
      FirstByTask(entries[1..], task);
    }
  }

  lemma CarrierExactly(journal: seq<Event>, task: string)
    ensures match EntryByTask(FoldOf(journal).entries, task)
            case Some(e) => Carrier(journal, task, e) && !NoCarrier(journal, task)
            case None => NoCarrier(journal, task)
  {
    hide FoldOf, Linkage, EntryByTask;
    FoldListsLinkage(journal);
    FirstByTask(FoldOf(journal).entries, task);
  }

  lemma CarrierHash(journal: seq<Event>, task: string, e: FoldEntry)
    requires Carrier(journal, task, e)
    ensures LastHash(journal, e.key) == AfterOf(e.source)
  {
  }

  lemma {:induction false} RegisteredByLast(events: seq<Event>, p: string)
    ensures p in RegisteredBy(events) ==>
              exists i :: RegistersAt(events, i, p, RegisteredBy(events)[p]) && forall j, x :: RegistersAt(events, j, p, x) ==> j <= i
    ensures p !in RegisteredBy(events) ==> forall j, x :: !RegistersAt(events, j, p, x)
  {
    if events != [] {
      var n := |events| - 1;
      var init, last := events[..n], events[n];
      RegisteredByLast(init, p);
      forall j, x
        ensures RegistersAt(events, j, p, x) <==> RegistersAt(init, j, p, x) || (j == n && last.Registered? && last.proposal == p && last.eid == x)
      {
      }
      if last.Registered? && last.proposal == p {
        assert RegistersAt(events, n, p, last.eid);
      } else if p in RegisteredBy(init) {
        var i :| RegistersAt(init, i, p, RegisteredBy(init)[p]) && forall j, x :: RegistersAt(init, j, p, x) ==> j <= i;
        assert RegistersAt(events, i, p, RegisteredBy(events)[p]);
      }
    }
  }

  /** The table the run keeps holds every proposal's last registration. */
  lemma RegisteredByExactly(journal: seq<Event>, p: string, eid: string)
    ensures p in RegisteredBy(journal) && RegisteredBy(journal)[p] == eid <==> Registration(journal, p, eid)
  {
    hide RegisteredBy;
    RegisteredByLast(journal, p);
    if Registration(journal, p, eid) {
      var i :| RegistersAt(journal, i, p, eid) && forall j, x :: RegistersAt(journal, j, p, x) ==> j <= i;
      var k :| RegistersAt(journal, k, p, RegisteredBy(journal)[p]) && forall j, x :: RegistersAt(journal, j, p, x) ==> j <= k;
      assert i == k;
    }
  }

  lemma KnownExactly(events: seq<Event>, eid: string)
    requires eid != ""
    ensures eid in EidSet(events) <==> Carried(events, eid)
  {
    if eid in EidSet(events) {
      var e :| e in events && EidOf(e) == eid;
      assert Named(e) && e.eid == eid;
    }
    if Carried(events, eid) {
      var e :| e in events && Named(e) && e.eid == eid;
      assert EidOf(e) == eid;
    }
  }

  lemma NodeCreateSaysSo(st: BuilderState, journal: seq<Event>, cs: Changeset, op: Op, rc: OpReceipt)
    requires st.fold == FoldOf(journal) && OpEid(cs, op) !in st.eids
    ensures NodeCreateSays(st.nodes, journal, cs, op, rc, BuildNodeCreate(st, cs, op, rc))
  {
    hide PriorHash, LastHash, FoldOf;
    LastHashIs(st, journal, op.node);
  }

  lemma EpicCreateSaysSo(st: BuilderState, journal: seq<Event>, op: Op, rc: OpReceipt)
    requires st.fold == FoldOf(journal) && st.registered == RegisteredBy(journal)
    ensures EpicCreateSays(journal, op, rc, BuildEpicCreate(st, op, rc))
  {
    hide RegisteredBy, Linkage, FoldOf, Registration;
    KeyLookup(journal, op.node);
    forall eid
      ensures op.node in RegisteredBy(journal) && RegisteredBy(journal)[op.node] == eid <==> Registration(journal, op.node, eid)
    {
      RegisteredByExactly(journal, op.node, eid);
    }
    if op.node in RegisteredBy(journal) {
      assert Registration(journal, op.node, RegisteredBy(journal)[op.node]);
    }
  }

  lemma CleanupSaysSo(st: BuilderState, journal: seq<Event>, cs: Changeset, op: Op, rc: OpReceipt)
    requires st.fold == FoldOf(journal)
    ensures CleanupSays(journal, OpEid(cs, op) in st.eids, cs, op, rc, BuildCleanupCreate(st, cs, op, rc))
  {
    hide FoldOf, Linkage;
    KeyLookup(journal, op.node);
    RemovedEntry(journal, op.node);
    LinkageSourced(journal, op.node);
  }

  lemma RemovedEntry(journal: seq<Event>, k: string)
    ensures var e := Linkage(journal, k); e.Some? ==> e.value.removed == IsRemoval(e.value.source)
  {
    IndexIndexed(journal);
    RemovedIsRemoval(journal, Index(journal), k, |journal|);
  }

  lemma RemovedCloseSaysSo(st: BuilderState, journal: seq<Event>, cs: Changeset, op: Op, rc: OpReceipt, task: string)
    requires st.fold == FoldOf(journal) && OpEid(cs, op) !in st.eids && NamesTask(op, task)
    ensures RemovedCloseSays(journal, cs, op, rc, task, BuildRemoved(st, cs, op, rc))
  {
    hide FoldOf, Carrier, NoCarrier;
    CarrierExactly(journal, task);
  }

  lemma FoldedCloseSaysSo(st: BuilderState, journal: seq<Event>, cs: Changeset, op: Op, rc: OpReceipt, task: string)
    requires st.fold == FoldOf(journal) && OpEid(cs, op) !in st.eids && NamesTask(op, task)
    ensures FoldedCloseSays(st.nodes, journal, cs, op, rc, task, BuildModifiedFromClose(st, cs, op, rc))
  {
    hide FoldOf, Carrier, NoCarrier, LastHash;
    CarrierExactly(journal, task);
    var e := EntryByTask(FoldOf(journal).entries, task);
    if e.Some? {
      CarrierHash(journal, task, e.value);
    }
  }

  lemma RetargetSaysSo(st: BuilderState, journal: seq<Event>, cs: Changeset, op: Op, task: string)
    requires st.fold == FoldOf(journal) && OpEid(cs, op) !in st.eids && NamesTask(op, task)
    ensures RetargetSays(st.nodes, journal, cs, op, task, BuildRetarget(st, cs, op))
  {
    hide PriorHash, LastHash, FoldOf;
    LastHashIs(st, journal, op.node);
  }

  lemma TargetExactly(op: Op)
    ensures match TargetTask(op)
            case Some(task) => NamesTask(op, task)
            case None => forall task :: !NamesTask(op, task)
  {
  }

  lemma CreateLands(st: BuilderState, journal: seq<Event>, cs: Changeset, op: Op, rc: OpReceipt)
    requires st.fold == FoldOf(journal) && st.registered == RegisteredBy(journal) && op.kind == Create
    ensures LandedSays(st.nodes, journal, OpEid(cs, op) in st.eids, cs, op, rc, BuildCreate(st, cs, op, rc))
  {
    hide BuildEpicCreate, BuildCleanupCreate, EpicCreateSays, CleanupSays, NodeCreateSays, RegisteredBy, FoldOf;
    if op.nodeKind == KIND_PROPOSAL_EPIC {
      EpicCreateSaysSo(st, journal, op, rc);
    } else if op.nodeKind == KIND_CLEANUP {
      CleanupSaysSo(st, journal, cs, op, rc);
    } else if OpEid(cs, op) !in st.eids {
      NodeCreateSaysSo(st, journal, cs, op, rc);
    }
  }

  lemma OtherLands(st: BuilderState, journal: seq<Event>, cs: Changeset, op: Op, rc: OpReceipt)
    requires st.fold == FoldOf(journal) && (op.kind == Close || op.kind == Retarget)
    ensures LandedSays(st.nodes, journal, OpEid(cs, op) in st.eids, cs, op, rc,
                       if op.kind == Close then BuildClose(st, cs, op, rc) else BuildRetarget(st, cs, op))
  {
    hide RemovedCloseSays, FoldedCloseSays, RetargetSays, FoldOf, EntryByTask, PriorHash, NamesTask;
    TargetExactly(op);
    var target := TargetTask(op);
    if target.Some? && OpEid(cs, op) !in st.eids {
      if op.kind == Retarget {
        RetargetSaysSo(st, journal, cs, op, target.value);
      } else if REASON_REMOVED <= op.reason {
        RemovedCloseSaysSo(st, journal, cs, op, rc, target.value);
      } else if REASON_MODIFIED <= op.reason {
        FoldedCloseSaysSo(st, journal, cs, op, rc, target.value);
      }
    }
  }

  /** Each operation writes what it should, whatever the batch holds before it. */
  lemma OpSaysSo(nodes: SpecNodes, journal: seq<Event>, sofar: seq<Event>, cs: Changeset, op: Op, rc: OpReceipt)
    ensures OpSays(nodes, journal, sofar, cs, op, rc, OpLines(WithBatch(StateFor(nodes, journal), sofar), cs, op, rc))
  {
    hide LandedSays, BuildCreate, BuildClose, BuildRetarget, FoldOf, EidSet, RegisteredBy, Carried;
    var st := WithBatch(StateFor(nodes, journal), sofar);
    var eid := cs.gitHead + ":" + op.opId;
    KnownExactly(journal + sofar, eid);
    EidSetConcat(journal, sofar);
    if op.kind == Create {
      CreateLands(st, journal, cs, op, rc);
    } else if op.kind != UnknownOp {
      OtherLands(st, journal, cs, op, rc);
    }
  }

  /** The batch falls into the operations' lines. */
  lemma {:induction false} Pieces(nodes: SpecNodes, journal: seq<Event>, cs: Changeset, rcs: seq<OpReceipt>, n: nat, batch: seq<Event>) returns (at: seq<nat>)
    requires n <= |cs.ops| && Covers(ReceiptIndex(rcs), cs)
    requires BatchUpTo(StateFor(nodes, journal), cs, ReceiptIndex(rcs), n) == Ok(batch)
    ensures PiecesSay(nodes, journal, cs, rcs, batch, at, n) && at[n] == |batch|
  {
    hide OpSays, OpLines, StateFor, ReceiptIndex, PieceSays;
    if n == 0 {
      at := [0];
    } else {
      var before := BatchUpTo(StateFor(nodes, journal), cs, ReceiptIndex(rcs), n - 1).value;
      var init := Pieces(nodes, journal, cs, rcs, n - 1, before);
      at := init + [|batch|];
      forall i | 0 <= i < n - 1
        ensures PieceSays(nodes, journal, cs, rcs, batch, at, i)
      {
        PieceGrows(nodes, journal, cs, rcs, before, init, i, batch, at);
      }
      LastPiece(nodes, journal, cs, rcs, before, batch, at, n - 1);
    }
  }

  lemma PieceGrows(nodes: SpecNodes, journal: seq<Event>, cs: Changeset, rcs: seq<OpReceipt>, before: seq<Event>, init: seq<nat>, i: nat,
                   batch: seq<Event>, at: seq<nat>)
    requires PieceSays(nodes, journal, cs, rcs, before, init, i) && before <= batch && init <= at
    ensures PieceSays(nodes, journal, cs, rcs, batch, at, i)
  {
    hide OpSays;
    assert before[..init[i]] == batch[..at[i]] && before[init[i]..init[i + 1]] == batch[at[i]..at[i + 1]];
  }

  lemma LastPiece(nodes: SpecNodes, journal: seq<Event>, cs: Changeset, rcs: seq<OpReceipt>, before: seq<Event>, batch: seq<Event>, at: seq<nat>, i: nat)
    requires i < |cs.ops| && Covers(ReceiptIndex(rcs), cs) && i + 1 < |at| && at[i] == |before| && at[i + 1] == |batch|
    requires BatchUpTo(StateFor(nodes, journal), cs, ReceiptIndex(rcs), i) == Ok(before)
    requires BatchUpTo(StateFor(nodes, journal), cs, ReceiptIndex(rcs), i + 1) == Ok(batch)
    ensures before <= batch && PieceSays(nodes, journal, cs, rcs, batch, at, i)
  {
    hide OpSays, OpLines, StateFor, ReceiptIndex, WithBatch;
    var op := cs.ops[i];
    assert op in cs.ops;
    ReceiptIndexOf(rcs);
    var rc := ReceiptIndex(rcs)[op.opId];
    OpSaysSo(nodes, journal, before, cs, op, rc);
    assert batch[..at[i]] == before;
    assert batch == before + batch[at[i]..at[i + 1]];
  }

  /** A run that an operation stops, stops at the first that can. */
  lemma {:induction false} FirstStop(nodes: SpecNodes, journal: seq<Event>, cs: Changeset, rcs: seq<OpReceipt>, n: nat, e: IngestError)
    requires n <= |cs.ops| && Covers(ReceiptIndex(rcs), cs)
    requires BatchUpTo(StateFor(nodes, journal), cs, ReceiptIndex(rcs), n) == Err(e)
    ensures Stops(nodes, journal, cs, rcs, e)
  {
    hide OpSays, OpLines, StateFor, ReceiptIndex, WithBatch, PiecesSay;
    var before := BatchUpTo(StateFor(nodes, journal), cs, ReceiptIndex(rcs), n - 1);
    if before.Err? {
      FirstStop(nodes, journal, cs, rcs, n - 1, e);
    } else {
      var at := Pieces(nodes, journal, cs, rcs, n - 1, before.value);
      var op := cs.ops[n - 1];
      assert op in cs.ops;
      ReceiptIndexOf(rcs);
      OpSaysSo(nodes, journal, before.value, cs, op, ReceiptIndex(rcs)[op.opId]);
    }
  }

  lemma MarkEidIs(entry: AbsorbedEntry)
    ensures AbsorbedEid(entry) == MarkEid(entry) && MarkEid(entry) != ""
  {
  }

  /** The absorbed entries taken so far, and their events. */
  ghost predicate MarksUpTo(nodes: SpecNodes, known: seq<Event>, cs: Changeset, n: nat, taken: seq<nat>, events: seq<Event>) {
    && n <= |cs.absorbed| && |events| == |taken| == |EidsIn(events)|
    && (forall i, j :: 0 <= i < j < |taken| ==> taken[i] < taken[j])
    && (forall k: nat :: k in taken <==> k < n && !Carried(known, MarkEid(cs.absorbed[k])))
    && (forall i :: 0 <= i < |taken| ==> taken[i] < n && MarkSays(nodes, cs, cs.absorbed[taken[i]], events[i])
                                         && EidsIn(events)[i] == MarkEid(cs.absorbed[taken[i]]))
  }

  lemma {:induction false} Marks(st: BuilderState, known: seq<Event>, cs: Changeset, n: nat) returns (taken: seq<nat>)
    requires n <= |cs.absorbed| && st.eids == EidSet(known)
    ensures match AbsorbedEvents(st, cs, cs.absorbed[..n])
            case Ok(events) => MarksUpTo(st.nodes, known, cs, n, taken, events)
            case Err(e) => MarkStops(st.nodes, known, cs, e)
  {
    hide EidSet, Carried, MarkSays, AbsorbedEid, MarkEid, EidsIn, AbsorbedEvent, AbsorbedEvents;
    if n == 0 {
      NothingAbsorbed(st, cs);
      taken := [];
    } else {
      var init := Marks(st, known, cs, n - 1);
      var before := AbsorbedEvents(st, cs, cs.absorbed[..n - 1]);
      taken := init;
      if before.Ok? {
        var entry := cs.absorbed[n - 1];
        AbsorbedNext(st, cs, n - 1, before.value);
        MarkEidIs(entry);
        KnownExactly(known, MarkEid(entry));
        assert entry == cs.absorbed[n - 1];
        if AbsorbedEid(entry) !in st.eids && entry.node in st.nodes {
          taken := init + [n - 1];
          NextMark(st, known, cs, n - 1, init, before.value);
        } else if AbsorbedEid(entry) !in st.eids {
          MarksKnown(st.nodes, known, cs, n - 1, init, before.value);
        }
      } else {
        AbsorbedStays(st, cs, n - 1);
      }
    }
  }

  lemma MarksKnown(nodes: SpecNodes, known: seq<Event>, cs: Changeset, n: nat, taken: seq<nat>, events: seq<Event>)
    requires MarksUpTo(nodes, known, cs, n, taken, events)
    ensures forall j :: 0 <= j < n ==> cs.absorbed[j].node in nodes || Carried(known, MarkEid(cs.absorbed[j]))
  {
    hide Carried, EidsIn;
    forall j: nat | j < n && !Carried(known, MarkEid(cs.absorbed[j]))
      ensures cs.absorbed[j].node in nodes
    {
      assert j in taken;
      var i :| 0 <= i < |taken| && taken[i] == j;
      assert MarkSays(nodes, cs, cs.absorbed[taken[i]], events[i]);
    }
  }

  lemma AbsorbedStays(st: BuilderState, cs: Changeset, n: nat)
    requires n < |cs.absorbed| && AbsorbedEvents(st, cs, cs.absorbed[..n]).Err?
    ensures AbsorbedEvents(st, cs, cs.absorbed[..n + 1]) == AbsorbedEvents(st, cs, cs.absorbed[..n])
  {
    assert cs.absorbed[..n + 1][..n] == cs.absorbed[..n];
  }

  lemma NextMark(st: BuilderState, known: seq<Event>, cs: Changeset, k: nat, taken: seq<nat>, events: seq<Event>)
    requires k < |cs.absorbed| && MarksUpTo(st.nodes, known, cs, k, taken, events)
    requires !Carried(known, MarkEid(cs.absorbed[k])) && cs.absorbed[k].node in st.nodes
    ensures MarksUpTo(st.nodes, known, cs, k + 1, taken + [k], events + [AbsorbedEvent(cs, st.nodes[cs.absorbed[k].node], cs.absorbed[k])])
  {
    hide Carried, EidsIn;
    var entry, event := cs.absorbed[k], AbsorbedEvent(cs, st.nodes[cs.absorbed[k].node], cs.absorbed[k]);
    MarkEidIs(entry);
    EidsInNext(events, event);
    assert MarkSays(st.nodes, cs, entry, event) && EidOf(event) == MarkEid(entry);
    assert forall x :: x in taken + [k] <==> x in taken || x == k;
  }

  lemma {:induction false} MarksSaySo(st: BuilderState, known: seq<Event>, cs: Changeset)
    requires st.eids == EidSet(known)
    ensures match AbsorbedLines(st, cs)
            case Ok(lines) => MarksSay(st.nodes, known, cs, lines)
            case Err(e) => MarkStops(st.nodes, known, cs, e)
  {
    hide EidSet, Carried, MarkSays, MarkEid, EidsIn, AbsorbedEvents;
    var taken := Marks(st, known, cs, |cs.absorbed|);
    assert cs.absorbed[..|cs.absorbed|] == cs.absorbed;
    if AbsorbedEvents(st, cs, cs.absorbed).Ok? {
      assert Untold(known, cs, taken);
    }
  }

  // ---- the gates ----

  /** A pairing counted twice stands on two lines. */
  lemma {:induction false} CountedTwice(events: seq<Event>, kind: ReceiptKind, referent: Referent)
    ensures Pairings(events, kind, referent) >= 1 <==>
            exists i :: 0 <= i < |events| && Pairs(events[i], kind, referent)
    ensures Pairings(events, kind, referent) >= 2 <==>
            exists i, j :: 0 <= i < j < |events| && Pairs(events[i], kind, referent) && Pairs(events[j], kind, referent)
  {
    if events != [] {
      var n := |events| - 1;
      CountedTwice(events[..n], kind, referent);
      if Pairs(events[n], kind, referent) && Pairings(events[..n], kind, referent) >= 1 {
        var i :| 0 <= i < n && Pairs(events[..n][i], kind, referent);
        assert Pairs(events[i], kind, referent);
      }
      if Pairings(events[..n], kind, referent) >= 2 {
        var i, j :| 0 <= i < j < n && Pairs(events[..n][i], kind, referent) && Pairs(events[..n][j], kind, referent);
        assert Pairs(events[i], kind, referent) && Pairs(events[j], kind, referent);
      }
    }
  }

  ghost predicate Pairs(e: Event, kind: ReceiptKind, referent: Referent) {
    e.Receipt? && e.receipt == kind && e.referent == referent
  }

  lemma PairedTwiceExactly(events: seq<Event>)
    ensures PairedTwice(events) <==> !SinglyPaired(events)
  {
    hide Pairings;
    if PairedTwice(events) {
      var i, j :| 0 <= i < j < |events| && events[i].Receipt? && events[j].Receipt? && events[i].receipt == events[j].receipt
        && events[i].referent == events[j].referent && events[i].referent != For("")
        && (events[i].receipt == TaskCreated || (events[i].receipt == TaskRetargeted && events[i].referent.For?));
      var kind, referent := events[i].receipt, events[i].referent;
      CountedTwice(events, kind, referent);
      assert Pairs(events[i], kind, referent) && Pairs(events[j], kind, referent);
    }
    if kind, referent :| Paired(kind, referent) && Pairings(events, kind, referent) > 1 {
      CountedTwice(events, kind, referent);
    }
  }

  lemma NamesUnknownExactly(journal: seq<Event>, batch: seq<Event>)
    ensures NamesUnknown(journal, batch) <==> !Answered(journal, batch)
  {
    hide EidSet, Carried;
    forall t | t != ""
      ensures t in EidSet(journal + batch) <==> Carried(journal + batch, t)
    {
      KnownExactly(journal + batch, t);
    }
    NoEmptyEid(journal + batch);
  }

  lemma NoEmptyEid(events: seq<Event>)
    ensures "" !in EidSet(events)
  {
  }

  lemma {:induction false} GateSays(declared: set<string>, journal: seq<Event>, batch: seq<Event>)
    ensures match Gate(declared, journal, batch)
            case Ok(x) => x == batch && (batch != [] ==> !PairedTwice(journal + batch) && !NamesUnknown(journal, batch) && !HasBadLine(declared, batch))
            case Err(e) => batch != [] && Refused(declared, journal, batch, e)
  {
    hide SinglyPaired, Answered, PairedTwice, NamesUnknown, LineValid, HasBadLine;
    PairedTwiceExactly(journal + batch);
    NamesUnknownExactly(journal, batch);
    BadLineExactly(declared, batch);
  }

  lemma NodeIdExactly(s: string)
    ensures NodeId(s) <==> IsHash(s)
  {
    assert forall i :: 0 <= i < |s| ==> s[i] in s;
  }

  lemma TypeNameExactly(s: string)
    ensures TypeName(s) <==> IsTypeName(s)
  {
    assert forall i :: 0 <= i < |s| ==> s[i] in s;
  }

  lemma FaultyExactly(declared: set<string>, e: Event)
    ensures Faulty(declared, e) <==> !LineValid(declared, e)
  {
    hide NodeId, IsHash, TypeName, IsTypeName;
    if e.Change? {
      NodeIdExactly(e.node);
      TypeNameExactly(e.nodeType);
    }
  }

  lemma BadLineExactly(declared: set<string>, batch: seq<Event>)
    ensures HasBadLine(declared, batch) <==> exists e :: e in batch && !LineValid(declared, e)
  {
    hide Faulty, LineValid;
    forall e | e in batch
      ensures Faulty(declared, e) <==> !LineValid(declared, e)
    {
      FaultyExactly(declared, e);
    }
  }

  // ---- the run ----

  lemma PairingSays(cs: Changeset, rcs: seq<OpReceipt>)
    ensures match PairError(cs, rcs)
            case Some(DuplicateReceipt) => !OnePerOp(rcs)
            case Some(MissingReceipt) => OnePerOp(rcs) && !EachAnswered(cs, rcs)
            case Some(ForeignReceipt) => OnePerOp(rcs) && EachAnswered(cs, rcs) && !EachAsked(cs, rcs)
            case Some(_) => false
            case None => OnePerOp(rcs) && EachAnswered(cs, rcs) && EachAsked(cs, rcs)
  {
    hide ReceiptIndex;
    ReceiptIndexOf(rcs);
    assert OnePerOp(rcs) <==> DistinctReceipts(rcs);
    AnsweredExactly(cs, rcs);
    AskedExactly(cs, rcs);
  }

  lemma AnsweredExactly(cs: Changeset, rcs: seq<OpReceipt>)
    ensures EachAnswered(cs, rcs) <==> Covers(ReceiptIndex(rcs), cs)
  {
    hide ReceiptIndex;
    ReceiptIndexOf(rcs);
    if Covers(ReceiptIndex(rcs), cs) {
      forall op | op in cs.ops
        ensures exists rc :: rc in rcs && rc.opId == op.opId
      {
        assert ReceiptIndex(rcs)[op.opId] in rcs;
      }
    }
  }

  lemma AskedExactly(cs: Changeset, rcs: seq<OpReceipt>)
    ensures EachAsked(cs, rcs) <==> NoneForeign(ReceiptIndex(rcs), cs)
  {
    hide ReceiptIndex;
    ReceiptIndexOf(rcs);
    if EachAsked(cs, rcs) {
      forall id | id in ReceiptIndex(rcs)
        ensures exists op :: op in cs.ops && op.opId == id
      {
        assert ReceiptIndex(rcs)[id] in rcs;
      }
    }
  }

  /** The two stages of a batch. */
  lemma {:induction false} BatchSays(nodes: SpecNodes, journal: seq<Event>, cs: Changeset, rcs: seq<OpReceipt>)
    requires Covers(ReceiptIndex(rcs), cs)
    ensures match FullBatch(StateFor(nodes, journal), cs, ReceiptIndex(rcs))
            case Ok(batch) => exists at :: WholeSays(nodes, journal, cs, rcs, batch, at)
            case Err(e) => Stops(nodes, journal, cs, rcs, e)
  {
    hide OpLines, ReceiptIndex, EidSet, AbsorbedLines, MarksSay, MarkStops, PieceSays, Covers, BatchUpTo;
    var st := StateFor(nodes, journal);
    match BatchUpTo(st, cs, ReceiptIndex(rcs), |cs.ops|)
    case Err(e) =>
      FirstStop(nodes, journal, cs, rcs, |cs.ops|, e);
    case Ok(ops) =>
      var at := Pieces(nodes, journal, cs, rcs, |cs.ops|, ops);
      EidSetConcat(journal, ops);
      MarksSaySo(WithBatch(st, ops), journal + ops, cs);
      var absorbed := AbsorbedLines(WithBatch(st, ops), cs);
      if absorbed.Ok? {
        var batch := ops + absorbed.value;
        forall i | 0 <= i < |cs.ops|
          ensures PieceSays(nodes, journal, cs, rcs, batch, at, i)
        {
          PieceGrows(nodes, journal, cs, rcs, ops, at, i, batch, at);
        }
        assert batch[..|ops|] == ops && batch[|ops|..] == absorbed.value;
        assert WholeSays(nodes, journal, cs, rcs, batch, at);
      }
  }

  /** Every answer a run can give says what it should. */
  lemma {:induction false} RunSaysSo(nodes: SpecNodes, declared: set<string>, journal: seq<Event>, cs: Changeset, rcs: seq<OpReceipt>)
    ensures RunSays(nodes, declared, journal, cs, rcs, Reconcile(nodes, declared, journal, cs, rcs))
  {
    hide FullBatch, StateFor, WholeSays, Gate, OnePerOp, EachAnswered, EachAsked, ReceiptIndex, PairError, PairedTwice, NamesUnknown, HasBadLine, Stops;
    PairingSays(cs, rcs);
    if PairError(cs, rcs).None? {
      AnsweredExactly(cs, rcs);
      BatchSays(nodes, journal, cs, rcs);
      var batch := FullBatch(StateFor(nodes, journal), cs, ReceiptIndex(rcs));
      if batch.Ok? {
        GateSays(declared, journal, batch.value);
      } else {
        StopErrors(nodes, journal, cs, rcs, batch.error);
      }
    }
  }

  /** What stops a run is no matter of pairing. */
  lemma StopErrors(nodes: SpecNodes, journal: seq<Event>, cs: Changeset, rcs: seq<OpReceipt>, e: IngestError)
    requires Stops(nodes, journal, cs, rcs, e)
    ensures e != DuplicateReceipt && e != MissingReceipt && e != ForeignReceipt
  {
    hide PiecesSay, Carried;
  }

  // ---- landed creates ----

  /** What an operation writes carries its own eid. */
  lemma OwnEid(nodes: SpecNodes, journal: seq<Event>, sofar: seq<Event>, cs: Changeset, op: Op, rc: OpReceipt, lines: seq<Event>, e: Event)
    requires OpSays(nodes, journal, sofar, cs, op, rc, Ok(lines)) && e in lines && Named(e)
    ensures e.eid == cs.gitHead + ":" + op.opId
  {
    hide Carried, Linkage, Describes, Buries, Registration, Carrier, NoCarrier, NamesTask;
  }

  lemma {:induction false} EidsBefore(nodes: SpecNodes, journal: seq<Event>, cs: Changeset, rcs: seq<OpReceipt>, batch: seq<Event>, at: seq<nat>, n: nat, i: nat, e: Event)
    requires PiecesSay(nodes, journal, cs, rcs, batch, at, n) && i <= n <= |cs.ops|
    requires at[i] <= |batch| && e in batch[..at[i]] && Named(e)
    ensures exists j :: 0 <= j < i && e.eid == cs.gitHead + ":" + cs.ops[j].opId
  {
    hide OpSays;
    if i > 0 {
      assert PieceSays(nodes, journal, cs, rcs, batch, at, i - 1);
      var before, piece := batch[..at[i - 1]], batch[at[i - 1]..at[i]];
      assert batch[..at[i]] == before + piece;
      if e in before {
        EidsBefore(nodes, journal, cs, rcs, batch, at, n, i - 1, e);
      } else {
        var rc :| rc in rcs && rc.opId == cs.ops[i - 1].opId && OpSays(nodes, journal, before, cs, cs.ops[i - 1], rc, Ok(piece));
        OwnEid(nodes, journal, before, cs, cs.ops[i - 1], rc, piece, e);
      }
    }
  }

  /** An eid no operation before it answers for is new to the operation. */
  lemma StillNew(nodes: SpecNodes, journal: seq<Event>, cs: Changeset, rcs: seq<OpReceipt>, batch: seq<Event>, at: seq<nat>, i: nat)
    requires PiecesSay(nodes, journal, cs, rcs, batch, at, |cs.ops|) && i < |cs.ops| && PieceSays(nodes, journal, cs, rcs, batch, at, i)
    requires forall j :: 0 <= j < |cs.ops| && j != i ==> cs.ops[j].opId != cs.ops[i].opId
    ensures var eid := cs.gitHead + ":" + cs.ops[i].opId; Carried(journal + batch[..at[i]], eid) <==> Carried(journal, eid)
  {
    hide OpSays;
    forall j | 0 <= j < |cs.ops| && j != i
      ensures cs.gitHead + ":" + cs.ops[j].opId != cs.gitHead + ":" + cs.ops[i].opId
    {
      SamePrefix(cs.gitHead + ":", cs.ops[j].opId, cs.ops[i].opId);
    }
    var eid, sofar := cs.gitHead + ":" + cs.ops[i].opId, batch[..at[i]];
    CarriedConcat(journal, sofar, eid);
    if Carried(sofar, eid) {
      var e :| e in sofar && Named(e) && e.eid == eid;
      EidsBefore(nodes, journal, cs, rcs, batch, at, |cs.ops|, i, e);
    }
  }

  lemma SamePrefix(prefix: string, a: string, b: string)
    ensures prefix + a == prefix + b <==> a == b
  {
    if prefix + a == prefix + b {
      assert a == (prefix + a)[|prefix|..] == (prefix + b)[|prefix|..] == b;
    }
  }

  lemma SameReceipt(rcs: seq<OpReceipt>, a: OpReceipt, b: OpReceipt)
    requires OnePerOp(rcs) && a in rcs && b in rcs && a.opId == b.opId
    ensures a == b
  {
  }

  /** An ok create whose eid is new to the journal: the spec knows the node, and the batch holds its event, `modified` with
      the last hash the journal has for the node or `added` when it has none, and right after it the receipt. */
  lemma NodeCreateRecorded(nodes: SpecNodes, declared: set<string>, journal: seq<Event>, cs: Changeset, rcs: seq<OpReceipt>,
                           batch: seq<Event>, i: nat, rc: OpReceipt) returns (k: nat)
    requires Reconcile(nodes, declared, journal, cs, rcs) == Ok(batch) && i < |cs.ops| && rc in rcs && rc.opId == cs.ops[i].opId
    requires cs.ops[i].kind == Create && cs.ops[i].nodeKind != "proposal_epic" && cs.ops[i].nodeKind != "cleanup" && rc.status == StatusOk
    requires !Carried(journal, cs.gitHead + ":" + cs.ops[i].opId) && forall j :: 0 <= j < |cs.ops| && j != i ==> cs.ops[j].opId != cs.ops[i].opId
    ensures k + 1 < |batch| && batch[k].Change? && cs.ops[i].node in nodes
    ensures batch[k].eid == cs.gitHead + ":" + cs.ops[i].opId && batch[k + 1] == Receipt(TaskCreated, rc.task, For(batch[k].eid))
    ensures batch[k].change == (if LastHash(journal, cs.ops[i].node).Some? then Modified else Added)
    ensures Describes(batch[k], nodes[cs.ops[i].node], cs.ops[i].node, cs.ops[i].title, cs.ops[i].nodeKind,
                      LastHash(journal, cs.ops[i].node), nodes[cs.ops[i].node].specHash)
  {
    hide Reconcile, Linkage, LastHash, Describes, MarksSay, OnePerOp, EachAnswered, EachAsked, EpicCreateSays, CleanupSays, Carried, PairedTwice, NamesUnknown, HasBadLine;
    RunSaysSo(nodes, declared, journal, cs, rcs);
    var at :| WholeSays(nodes, journal, cs, rcs, batch, at);
    assert PieceSays(nodes, journal, cs, rcs, batch, at, i);
    var other :| other in rcs && other.opId == cs.ops[i].opId && OpSays(nodes, journal, batch[..at[i]], cs, cs.ops[i], other, Ok(batch[at[i]..at[i + 1]]));
    SameReceipt(rcs, rc, other);
    StillNew(nodes, journal, cs, rcs, batch, at, i);
    k := at[i];
    var lines := batch[at[i]..at[i + 1]];
    assert NodeCreateSays(nodes, journal, cs, cs.ops[i], rc, Ok(lines));
    assert lines[0] == batch[k] && lines[1] == batch[k + 1];
  }

  // ---- the summary ----

  /** How many numbers below n satisfy p. */
  function HowMany(n: nat, p: nat -> bool): nat {
    if n == 0 then 0 else HowMany(n - 1, p) + if p(n - 1) then 1 else 0
  }

  /** Operation i is of the kind and its receipt is ok. */
  function Landed(cs: Changeset, byOp: map<string, OpReceipt>, kind: OpType): nat -> bool {
    (i: nat) => i < |cs.ops| && cs.ops[i].kind == kind && cs.ops[i].opId in byOp && byOp[cs.ops[i].opId].status == StatusOk
  }

  function Reports(cs: Changeset, byOp: map<string, OpReceipt>, status: OpStatus): nat -> bool {
    (i: nat) => i < |cs.ops| && cs.ops[i].opId in byOp && byOp[cs.ops[i].opId].status == status
  }

  function Changes(batch: seq<Event>): nat -> bool {
    (i: nat) => i < |batch| && batch[i].Change?
  }

  function Receipts(batch: seq<Event>): nat -> bool {
    (i: nat) => i < |batch| && (batch[i].Receipt? || batch[i].Refresh?)
  }

  /** Each counter is the number of operations or lines it is named for. */
  ghost predicate SummarySays(cs: Changeset, byOp: map<string, OpReceipt>, batch: seq<Event>, s: ReconcileSummary) {
    && s.okCreates == HowMany(|cs.ops|, Landed(cs, byOp, Create))
    && s.okCloses == HowMany(|cs.ops|, Landed(cs, byOp, Close))
    && s.okRetargets == HowMany(|cs.ops|, Landed(cs, byOp, Retarget))
    && s.skipped == HowMany(|cs.ops|, Reports(cs, byOp, StatusSkipped))
    && s.errors == HowMany(|cs.ops|, Reports(cs, byOp, StatusError))
    && s.eventsAppended == HowMany(|batch|, Changes(batch))
    && s.receiptsAppended == HowMany(|batch|, Receipts(batch))
  }

  lemma {:induction false} OpsCounted(cs: Changeset, byOp: map<string, OpReceipt>, n: nat)
    requires n <= |cs.ops| && Covers(byOp, cs)
    ensures Tally(cs, byOp, n) ==
            ReconcileSummary(HowMany(n, Landed(cs, byOp, Create)), HowMany(n, Landed(cs, byOp, Close)), HowMany(n, Landed(cs, byOp, Retarget)),
                             HowMany(n, Reports(cs, byOp, StatusSkipped)), HowMany(n, Reports(cs, byOp, StatusError)), 0, 0)
  {
    if n > 0 {
      OpsCounted(cs, byOp, n - 1);
      assert cs.ops[n - 1] in cs.ops;
      assert forall kind :: Landed(cs, byOp, kind)(n - 1) == (cs.ops[n - 1].kind == kind && byOp[cs.ops[n - 1].opId].status == StatusOk);
      assert forall status :: Reports(cs, byOp, status)(n - 1) == (byOp[cs.ops[n - 1].opId].status == status);
    }
  }

  lemma {:induction false} LinesCounted(s: ReconcileSummary, batch: seq<Event>, n: nat)
    requires n <= |batch|
    ensures TallyLines(s, batch[..n]) == s.(eventsAppended := s.eventsAppended + HowMany(n, Changes(batch)),
                                            receiptsAppended := s.receiptsAppended + HowMany(n, Receipts(batch)))
  {
    if n > 0 {
      LinesCounted(s, batch, n - 1);
      assert batch[..n][..n - 1] == batch[..n - 1];
    }
  }

  /** The summary of a run counts its operations and the lines it appended. */
  lemma SummarySaysSo(cs: Changeset, byOp: map<string, OpReceipt>, batch: seq<Event>)
    requires Covers(byOp, cs)
    ensures SummarySays(cs, byOp, batch, TallyLines(Tally(cs, byOp, |cs.ops|), batch))
  {
    OpsCounted(cs, byOp, |cs.ops|);
    LinesCounted(Tally(cs, byOp, |cs.ops|), batch, |batch|);
    assert batch[..|batch|] == batch;
  }
}
