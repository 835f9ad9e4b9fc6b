/**
 Builds the journal lines an operation of the changeset implies, from the
 operation, its receipt and a read-only view of the journal.
 */
module EventBuilder {
  import opened Results
  import opened PlanTypes
  import opened Journal

  const REASON_REMOVED := "Spec node removed"
  const REASON_MODIFIED := "Spec node modified"

  datatype OpStatus = StatusOk | StatusError | StatusSkipped | StatusUnknown

  datatype OpReceipt = OpReceipt(opId: string, status: OpStatus, task: string)

  datatype NodeMetadata = NodeMetadata(mod: string, component: string, contentFile: string, specHash: string, nodeType: string)

  type SpecNodes = map<string, NodeMetadata>

  datatype IngestError =
    | DuplicateReceipt | MissingReceipt | ForeignReceipt
    | UnknownStatus(op: string) | UnknownType(op: string)
    | BadTarget(op: string)
    | NoJournalEntry(op: string)
    | NoMetadata(node: string)
    | NotRegistered(op: string)
    | DoublePairing | UnknownReferent | BadLine | WriteFailed

  /** The per-run state: the fold is of the journal as the run found it, `eids` grows with the batch. */
  datatype BuilderState = BuilderState(
    nodes: SpecNodes, fold: Fold, registered: map<string, string>, eids: set<string>)

  type Lines = Result<seq<Event>, IngestError>

  function AfterOf(e: Event): Option<string> {
    if e.Change? then e.after else None
  }

  function NameOf(e: Event): string {
    if e.Change? then e.name else ""
  }

  function NodeTypeOf(e: Event): string {
    if e.Change? then e.nodeType else ""
  }

  function ModOf(e: Event): string {
    if e.Change? then e.mod else ""
  }

  function PathOf(e: Event): string {
    if e.Change? then e.path else ""
  }

  function NonEmpty(primary: string, fallback: string): string {
    if primary != "" then primary else fallback
  }

  function EntryByKey(entries: seq<FoldEntry>, key: string): (r: Option<FoldEntry>)
    ensures r.Some? ==> r.value in entries && r.value.key == key
    ensures r.None? ==> forall e :: e in entries ==> e.key != key
  {
    if entries == [] then None
    else if entries[0].key == key then Some(entries[0])
    else EntryByKey(entries[1..], key)
  }

  /** The first entry, in journal order, whose current task is `task`. */
  function EntryByTask(entries: seq<FoldEntry>, task: string): (r: Option<FoldEntry>)
    ensures r.Some? ==> r.value in entries && r.value.task == task
    ensures r.None? ==> forall e :: e in entries ==> e.task != task
  {
    if entries == [] then None
    else if entries[0].task == task then Some(entries[0])
    else EntryByTask(entries[1..], task)
  }

  function PriorHash(st: BuilderState, node: string): Option<string> {
    var entry := EntryByKey(st.fold.entries, node);
    if entry.Some? then AfterOf(entry.value.source) else None
  }

  /** The operation's own task target, when it has one. */
  function TargetTask(op: Op): Option<string> {
    match op.target
    case Some(TaskRef(id)) => if id != "" then Some(id) else None
    case _ => None
  }

  function OpEid(cs: Changeset, op: Op): string {
    DeriveEid(cs.gitHead, op.opId)
  }

  function RefreshEid(node: string, before: Option<string>, after: Option<string>): string {
    "refresh:" + node + ":" + OrEmpty(before) + ":" + OrEmpty(after)
  }

  function OrEmpty(s: Option<string>): string {
    if s.Some? then s.value else ""
  }

  function BuildCreate(st: BuilderState, cs: Changeset, op: Op, rc: OpReceipt): Lines {
    if op.nodeKind == KIND_PROPOSAL_EPIC then
      BuildEpicCreate(st, op, rc)
    else if op.nodeKind == KIND_CLEANUP then
      BuildCleanupCreate(st, cs, op, rc)
    else
      BuildNodeCreate(st, cs, op, rc)
  }

  /** An added event for a node without a prior hash, a modified one otherwise, and the task that was created. */
  function BuildNodeCreate(st: BuilderState, cs: Changeset, op: Op, rc: OpReceipt): Lines {
    var eid := OpEid(cs, op);
    if eid in st.eids then
      Ok([])
    else if op.node !in st.nodes then
      Err(NoMetadata(op.node))
    else
      var md := st.nodes[op.node];
      var before := PriorHash(st, op.node);
      Ok([Change(if before.Some? then Modified else Added, eid, op.node, NonEmpty(md.component, op.title),
                 NonEmpty(md.nodeType, op.nodeKind), md.mod, before, Some(md.specHash), cs.gitHead, cs.proposal, md.contentFile),
          Receipt(TaskCreated, rc.task, For(eid))])
  }

  /** One receipt for the proposal's registration, unless the fold already carries the epic. */
  function BuildEpicCreate(st: BuilderState, op: Op, rc: OpReceipt): Lines {
    if EntryByKey(st.fold.entries, op.node).Some? then
      Ok([])
    else if op.node !in st.registered then
      Err(NotRegistered(op.opId))
    else
      Ok([Receipt(TaskCreated, rc.task, For(st.registered[op.node]))])
  }

  function RemovalOf(cs: Changeset, eid: string, entry: FoldEntry): Event {
    Change(Removed, eid, entry.key, NameOf(entry.source), NodeTypeOf(entry.source), ModOf(entry.source),
           AfterOf(entry.source), None, cs.gitHead, cs.proposal, PathOf(entry.source))
  }

  /** Answers the removal the journal already carries, or mints it. */
  function BuildCleanupCreate(st: BuilderState, cs: Changeset, op: Op, rc: OpReceipt): Lines {
    var found := EntryByKey(st.fold.entries, op.node);
    if found.None? then
      Err(NoJournalEntry(op.opId))
    else
      var entry := found.value;
      if entry.removed then
        if entry.task != "" then
          Ok([])
        else
          Ok([Receipt(TaskCreated, rc.task, For(EidOf(entry.source)))])
      else
        var eid := OpEid(cs, op);
        if eid in st.eids then
          Ok([])
        else
          Ok([RemovalOf(cs, eid, entry), Receipt(TaskCreated, rc.task, For(eid))])
  }

  function BuildClose(st: BuilderState, cs: Changeset, op: Op, rc: OpReceipt): Lines {
    if REASON_REMOVED <= op.reason then
      BuildRemoved(st, cs, op, rc)
    else if REASON_MODIFIED <= op.reason then
      BuildModifiedFromClose(st, cs, op, rc)
    else
      Ok([])
  }

  function BuildRemoved(st: BuilderState, cs: Changeset, op: Op, rc: OpReceipt): Lines {
    var target := TargetTask(op);
    var eid := OpEid(cs, op);
    if target.None? then
      Err(BadTarget(op.opId))
    else if eid in st.eids then
      Ok([])
    else
      var entry := EntryByTask(st.fold.entries, target.value);
      if entry.None? then
        Err(NoJournalEntry(op.opId))
      else
        Ok([RemovalOf(cs, eid, entry.value), Receipt(TaskClosed, rc.task, For(eid))])
  }

  function BuildModifiedFromClose(st: BuilderState, cs: Changeset, op: Op, rc: OpReceipt): Lines {
    var target := TargetTask(op);
    var eid := OpEid(cs, op);
    if target.None? then
      Err(BadTarget(op.opId))
    else if eid in st.eids then
      Ok([])
    else
      var found := EntryByTask(st.fold.entries, target.value);
      if found.None? then
        Err(NoJournalEntry(op.opId))
      else
        var entry := found.value;
        if entry.key !in st.nodes then
          Err(NoMetadata(entry.key))
        else
          var md := st.nodes[entry.key];
          Ok([Change(Modified, eid, entry.key, NonEmpty(md.component, NameOf(entry.source)),
                     NonEmpty(md.nodeType, NodeTypeOf(entry.source)), md.mod, AfterOf(entry.source), Some(md.specHash),
                     cs.gitHead, cs.proposal, md.contentFile),
              Receipt(TaskClosed, rc.task, For(eid))])
  }

  function BuildRetarget(st: BuilderState, cs: Changeset, op: Op): Lines {
    var target := TargetTask(op);
    var eid := OpEid(cs, op);
    if target.None? then
      Err(BadTarget(op.opId))
    else if eid in st.eids then
      Ok([])
    else if op.node !in st.nodes then
      Err(NoMetadata(op.node))
    else
      var md := st.nodes[op.node];
      Ok([Change(Modified, eid, op.node, md.component, md.nodeType, md.mod, PriorHash(st, op.node), Some(op.hash),
                 cs.gitHead, cs.proposal, md.contentFile),
          Receipt(TaskRetargeted, target.value, For(eid))])
  }

  /** What one operation contributes: nothing unless its receipt is ok. */
  function OpLines(st: BuilderState, cs: Changeset, op: Op, rc: OpReceipt): Lines {
    if op.kind == UnknownOp then
      Err(UnknownType(op.opId))
    else
      match rc.status
      case StatusError => Ok([])
      case StatusSkipped => Ok([])
      case StatusUnknown => Err(UnknownStatus(op.opId))
      case StatusOk =>
        match op.kind
        case Create => BuildCreate(st, cs, op, rc)
        case Close => BuildClose(st, cs, op, rc)
        case _ => BuildRetarget(st, cs, op)
  }

  function AbsorbedEid(entry: AbsorbedEntry): string {
    RefreshEid(entry.node, Some(entry.before), Some(entry.after))
  }

  function AbsorbedEvent(cs: Changeset, md: NodeMetadata, entry: AbsorbedEntry): Event {
    Change(Modified, AbsorbedEid(entry), entry.node, md.component, md.nodeType, md.mod,
           Some(entry.before), Some(entry.after), cs.gitHead, cs.proposal, md.contentFile)
  }

  /** The events of the absorbed entries whose eid the journal and the batch do not carry yet. */
  function AbsorbedEvents(st: BuilderState, cs: Changeset, entries: seq<AbsorbedEntry>): Lines {
    if entries == [] then
      Ok([])
    else
      var before := AbsorbedEvents(st, cs, entries[..|entries| - 1]);
      var entry := entries[|entries| - 1];
      if before.Err? || AbsorbedEid(entry) in st.eids then
        before
      else if entry.node !in st.nodes then
        Err(NoMetadata(entry.node))
      else
        Ok(before.value + [AbsorbedEvent(cs, st.nodes[entry.node], entry)])
  }

  function EidsIn(lines: seq<Event>): seq<string> {
    if lines == [] then [] else EidsIn(lines[..|lines| - 1]) + [EidOf(lines[|lines| - 1])]
  }

  /** The absorbed events closed by the one refresh receipt that names them; nothing when there are none. */
  function AbsorbedLines(st: BuilderState, cs: Changeset): Lines {
    var events := AbsorbedEvents(st, cs, cs.absorbed);
    if events.Err? || events.value == [] then
      events
    else
      Ok(events.value + [Refresh(cs.gitHead, EidsIn(events.value))])
  }

  /** How one more entry continues the events so far. */
  lemma AbsorbedNext(st: BuilderState, cs: Changeset, k: nat, lines: seq<Event>)
    requires k < |cs.absorbed| && AbsorbedEvents(st, cs, cs.absorbed[..k]) == Ok(lines)
    ensures var entry := cs.absorbed[k];
            AbsorbedEvents(st, cs, cs.absorbed[..k + 1]) ==
            if AbsorbedEid(entry) in st.eids then Ok(lines)
            else if entry.node !in st.nodes then Err(NoMetadata(entry.node))
            else Ok(lines + [AbsorbedEvent(cs, st.nodes[entry.node], entry)])
  {
    assert cs.absorbed[..k + 1][..k] == cs.absorbed[..k];
  }

  lemma EidsInNext(lines: seq<Event>, e: Event)
    ensures EidsIn(lines + [e]) == EidsIn(lines) + [EidOf(e)]
  {
    assert (lines + [e])[..|lines|] == lines;
  }

  method BuildAbsorbed(st: BuilderState, cs: Changeset) returns (r: Lines)
    ensures r == AbsorbedLines(st, cs)
  {
    hide AbsorbedEvents, AbsorbedEid, EidsIn;
    var lines: seq<Event> := [];
    var eids: seq<string> := [];
    NothingAbsorbed(st, cs);
    for k := 0 to |cs.absorbed|
      invariant AbsorbedEvents(st, cs, cs.absorbed[..k]) == Ok(lines) && eids == EidsIn(lines) && |eids| == |lines|
    {
      var entry := cs.absorbed[k];
      AbsorbedNext(st, cs, k, lines);
      var eid := AbsorbedEid(entry);
      if eid !in st.eids {
        if entry.node !in st.nodes {
          AbsorbedFails(st, cs, k + 1);
          return Err(NoMetadata(entry.node));
        }
        var event := AbsorbedEvent(cs, st.nodes[entry.node], entry);
        EidsInNext(lines, event);
        lines, eids := lines + [event], eids + [eid];
      }
    }
    assert cs.absorbed[..|cs.absorbed|] == cs.absorbed;
    if |eids| == 0 {
      return Ok(lines);
    }
    return Ok(lines + [Refresh(cs.gitHead, eids)]);
  }

  lemma NothingAbsorbed(st: BuilderState, cs: Changeset)
    ensures AbsorbedEvents(st, cs, cs.absorbed[..0]) == Ok([]) && EidsIn([]) == []
  {
  }

  lemma {:induction false} AbsorbedFails(st: BuilderState, cs: Changeset, k: nat)
    requires k <= |cs.absorbed| && AbsorbedEvents(st, cs, cs.absorbed[..k]).Err?
    ensures AbsorbedEvents(st, cs, cs.absorbed) == AbsorbedEvents(st, cs, cs.absorbed[..k])
    decreases |cs.absorbed| - k
  {
    if k < |cs.absorbed| {
      assert cs.absorbed[..k + 1][..k] == cs.absorbed[..k];
      AbsorbedFails(st, cs, k + 1);
    } else {
      assert cs.absorbed[..k] == cs.absorbed;
    }
  }
}
