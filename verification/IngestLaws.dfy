/**
 What an ingest run does to the journal's linkage, and what a second run of the
 same changeset and receipts does: nothing.
 */
module IngestLaws {
  import opened Results
  import opened PlanTypes
  import opened Journal
  import opened FoldSpec
  import opened JournalGrowth
  import opened EventBuilder
  import opened InvariantChecker
  import opened Reconciler

  /** The key an operation's lines are filed under. */
  function KeyOf(journal: seq<Event>, op: Op): Option<string> {
    match op.kind
    case Create => Some(op.node)
    case Retarget => Some(op.node)
    case Close =>
      var target := TargetTask(op);
      if (REASON_REMOVED <= op.reason || REASON_MODIFIED <= op.reason) && target.Some? then
        var e := EntryByTask(FoldOf(journal).entries, target.value);
        if e.Some? then Some(e.value.key) else None
      else
        None
    case UnknownOp => None
  }

  lemma KeyLookup(journal: seq<Event>, k: string)
    ensures EntryByKey(FoldOf(journal).entries, k) == Linkage(journal, k)
  {
    FoldListsLinkage(journal);
    LinkageSourced(journal, k);
  }

  lemma EidSetCarried(events: seq<Event>)
    requires DistinctEids(events)
    ensures forall t :: t in EidSet(events) <==> Carried(events, t)
  {
    forall t | Carried(events, t)
      ensures t in EidSet(events)
    {
      var e :| e in events && Named(e) && e.eid == t;
      var i :| 0 <= i < |events| && events[i] == e;
      assert EidOf(e) == t != "";
    }
  }

  ghost predicate RegistersAt(events: seq<Event>, i: int, p: string, eid: string) {
    0 <= i < |events| && events[i].Registered? && events[i].proposal == p && events[i].eid == eid
  }

  lemma {:induction false} RegisteredByOf(events: seq<Event>, p: string) returns (i: nat)
    requires p in RegisteredBy(events)
    ensures RegistersAt(events, i, p, RegisteredBy(events)[p])
  {
    var last := events[|events| - 1];
    if last.Registered? && last.proposal == p {
      i := |events| - 1;
    } else {
      i := RegisteredByOf(events[..|events| - 1], p);
    }
  }

  lemma {:induction false} RemovedIsRemoval(events: seq<Event>, index: map<string, nat>, k: string, n: nat)
    requires n <= |events| && Indexed(events, index)
    ensures var e := EntryAt(events, index, k, n); e.Some? ==> e.value.removed == IsRemoval(e.value.source)
  {
    if n > 0 {
      RemovedIsRemoval(events, index, k, n - 1);
    }
  }

  /** A builder over the journal `base`, with `batch` built so far. */
  ghost predicate StateOver(st: BuilderState, base: seq<Event>, batch: seq<Event>) {
    && st.fold == FoldOf(base)
    && st.registered == RegisteredBy(base)
    && st.eids == EidSet(base) + EidSet(batch)
  }

  /** Where a landed operation leaves its key. */
  ghost predicate Lands(journal: seq<Event>, op: Op, rc: OpReceipt, lines: seq<Event>, k: string)
    requires lines != []
  {
    var e := Linkage(journal, k);
    match op.kind
    case Create =>
      && e.Some? && e.value.task == rc.task
      && (if op.nodeKind == KIND_PROPOSAL_EPIC then !e.value.removed
          else if op.nodeKind == KIND_CLEANUP then e.value.removed
          else !e.value.removed && e.value.source == lines[0])
    case Retarget => e.Some? && Some(e.value.task) == TargetTask(op) && !e.value.removed && e.value.source == lines[0]
    case Close => REASON_REMOVED <= op.reason ==> e.Some? && e.value.removed && e.value.task == ""
    case UnknownOp => false
  }

  ghost predicate OtherKeysStay(before: seq<Event>, after: seq<Event>, key: Option<string>) {
    forall k {:trigger Linkage(after, k)} :: Some(k) != key ==> Linkage(after, k) == Linkage(before, k)
  }

  /** Whatever an operation moves ends up on a new line, without a task, or with the task it created. */
  ghost predicate MovesTo(before: seq<Event>, after: seq<Event>, op: Op, rc: OpReceipt) {
    forall k {:trigger Linkage(after, k)} :: Linkage(after, k) == Linkage(before, k) || MovedEntry(Linkage(after, k), |before|, op, rc)
  }

  ghost predicate MovedEntry(e: Option<FoldEntry>, line: nat, op: Op, rc: OpReceipt) {
    e.Some? && (e.value.task == "" || e.value.line >= line || (op.kind == Create && e.value.task == rc.task))
  }

  lemma PairMoves(s: seq<Event>, change: Event, receipt: Event)
    requires Sound(s) && change.Change? && !Carried(s, change.eid) && change.eid != ""
    requires receipt.Receipt? && receipt.referent == For(change.eid)
    ensures Sound(s + [change, receipt]) && OtherKeysStay(s, s + [change, receipt], Some(change.node))
    ensures Linkage(s + [change, receipt], change.node) ==
            if TaskBearing(receipt) then Some(FoldEntry(change.node, receipt.task, IsRemoval(change), change, |s|))
            else if IsRemoval(change) then Some(FoldEntry(change.node, "", true, change, |s|))
            else Linkage(s, change.node)
  {
    AppendPair(s, change, receipt, change.node);
    forall k {:trigger Linkage(s + [change, receipt], k)} | k != change.node
      ensures Linkage(s + [change, receipt], k) == Linkage(s, k)
    {
      AppendPair(s, change, receipt, k);
    }
  }

  lemma ReceiptMoves(s: seq<Event>, receipt: Event, i: nat, key: string)
    requires Sound(s) && i < |s| && Named(s[i]) && TaskBearing(receipt) && receipt.referent == For(s[i].eid)
    requires SourceKey(s[i]) == Some(key)
    ensures Sound(s + [receipt]) && OtherKeysStay(s, s + [receipt], Some(key))
    ensures Linkage(s + [receipt], key) == Some(FoldEntry(key, receipt.task, IsRemoval(s[i]), s[i], i))
  {
    AppendReceipt(s, receipt, i, key);
    forall k {:trigger Linkage(s + [receipt], k)} | k != key
      ensures Linkage(s + [receipt], k) == Linkage(s, k)
    {
      AppendReceipt(s, receipt, i, k);
    }
  }

  /** The lines of one operation keep the journal sound, move its own key as `Lands` says, and no other. */
  lemma OpMoves(st: BuilderState, base: seq<Event>, batch: seq<Event>, cs: Changeset, op: Op, rc: OpReceipt, lines: seq<Event>)
    requires Sound(base) && Sound(base + batch) && StateOver(st, base, batch)
    requires OpLines(st, cs, op, rc) == Ok(lines)
    ensures Sound(base + batch + lines)
    ensures OtherKeysStay(base + batch, base + batch + lines, KeyOf(base, op))
    ensures MovesTo(base + batch, base + batch + lines, op, rc)
    ensures lines != [] ==> KeyOf(base, op).Some? && Lands(base + batch + lines, op, rc, lines, KeyOf(base, op).value)
  {
    var s := base + batch;
    if lines == [] {
      assert s + lines == s;
    } else if |lines| == 2 {
      PairLands(st, base, batch, cs, op, rc, lines);
    } else {
      SingleLands(st, base, batch, cs, op, rc, lines);
    }
  }

  lemma MovesByKey(before: seq<Event>, after: seq<Event>, key: string, op: Op, rc: OpReceipt)
    requires OtherKeysStay(before, after, Some(key))
    requires Linkage(after, key) == Linkage(before, key) || MovedEntry(Linkage(after, key), |before|, op, rc)
    ensures MovesTo(before, after, op, rc)
  {
  }

  lemma PairLands(st: BuilderState, base: seq<Event>, batch: seq<Event>, cs: Changeset, op: Op, rc: OpReceipt, lines: seq<Event>)
    requires Sound(base) && Sound(base + batch) && StateOver(st, base, batch)
    requires OpLines(st, cs, op, rc) == Ok(lines) && |lines| == 2
    ensures Sound(base + batch + lines)
    ensures OtherKeysStay(base + batch, base + batch + lines, KeyOf(base, op))
    ensures MovesTo(base + batch, base + batch + lines, op, rc)
    ensures KeyOf(base, op).Some? && Lands(base + batch + lines, op, rc, lines, KeyOf(base, op).value)
  {
    var s := base + batch;
    EidSetConcat(base, batch);
    EidSetCarried(s);
    assert lines == [lines[0], lines[1]];
    PairForm(st, base, cs, op, rc, lines);
    PairMoves(s, lines[0], lines[1]);
    MovesByKey(s, s + lines, lines[0].node, op, rc);
  }

  lemma SingleLands(st: BuilderState, base: seq<Event>, batch: seq<Event>, cs: Changeset, op: Op, rc: OpReceipt, lines: seq<Event>)
    requires Sound(base) && Sound(base + batch) && StateOver(st, base, batch)
    requires OpLines(st, cs, op, rc) == Ok(lines) && lines != [] && |lines| != 2
    ensures Sound(base + batch + lines)
    ensures OtherKeysStay(base + batch, base + batch + lines, KeyOf(base, op))
    ensures MovesTo(base + batch, base + batch + lines, op, rc)
    ensures KeyOf(base, op).Some? && Lands(base + batch + lines, op, rc, lines, KeyOf(base, op).value)
  {
    var s := base + batch;
    SingleForm(st, base, cs, op, rc, lines);
    assert lines == [lines[0]];
    var i := SingleReferent(st, base, cs, op, rc, lines);
    assert s[i] == base[i];
    ReceiptMoves(s, lines[0], i, op.node);
    MovesByKey(s, s + lines, op.node, op, rc);
  }

  /** Two lines: an event under the operation's own eid, and the receipt for it. */
  lemma PairForm(st: BuilderState, base: seq<Event>, cs: Changeset, op: Op, rc: OpReceipt, lines: seq<Event>)
    requires st.fold == FoldOf(base) && OpLines(st, cs, op, rc) == Ok(lines) && |lines| == 2
    ensures lines[0].Change? && lines[0].eid == OpEid(cs, op) && lines[0].eid !in st.eids && lines[0].eid != ""
    ensures lines[1].Receipt? && lines[1].referent == For(lines[0].eid)
    ensures KeyOf(base, op) == Some(lines[0].node)
    ensures TaskBearing(lines[1]) <==> op.kind == Create || op.kind == Retarget
    ensures TaskBearing(lines[1]) ==> (if op.kind == Create then lines[1].task == rc.task else Some(lines[1].task) == TargetTask(op))
    ensures IsRemoval(lines[0]) <==> (op.kind == Close && REASON_REMOVED <= op.reason) || (op.kind == Create && op.nodeKind == KIND_CLEANUP)
    ensures op.kind == Create ==> op.nodeKind != KIND_PROPOSAL_EPIC
  {
  }

  /** One line: a receipt for an epic's registration or for an older removal. */
  lemma SingleForm(st: BuilderState, base: seq<Event>, cs: Changeset, op: Op, rc: OpReceipt, lines: seq<Event>)
    requires st.fold == FoldOf(base) && OpLines(st, cs, op, rc) == Ok(lines) && lines != [] && |lines| != 2
    ensures |lines| == 1 && op.kind == Create && (op.nodeKind == KIND_PROPOSAL_EPIC || op.nodeKind == KIND_CLEANUP)
    ensures lines[0].Receipt? && lines[0].receipt == TaskCreated && lines[0].task == rc.task && lines[0].referent.For?
    ensures KeyOf(base, op) == Some(op.node)
  {
  }

  lemma SingleReferent(st: BuilderState, base: seq<Event>, cs: Changeset, op: Op, rc: OpReceipt, lines: seq<Event>) returns (i: nat)
    requires Sound(base) && st.fold == FoldOf(base) && st.registered == RegisteredBy(base)
    requires OpLines(st, cs, op, rc) == Ok(lines) && lines != [] && |lines| != 2
    ensures i < |base| && Named(base[i]) && lines[0].Receipt? && lines[0].referent == For(base[i].eid)
    ensures SourceKey(base[i]) == Some(op.node)
    ensures IsRemoval(base[i]) <==> op.nodeKind == KIND_CLEANUP
  {
    if op.nodeKind == KIND_PROPOSAL_EPIC {
      i := RegisteredByOf(base, op.node);
    } else {
      KeyLookup(base, op.node);
      LinkageSourced(base, op.node);
      RemovedIsRemoval(base, Index(base), op.node, |base|);
      i := Linkage(base, op.node).value.line;
    }
  }
}
