/**
 The normal ingest run: pair receipts with operations, build the batch in
 changeset order, gate it, and append it to the journal in one step.
 */
module Reconciler {
  import opened Results
  import opened PlanTypes
  import opened Journal
  import opened EventBuilder
  import opened InvariantChecker

  // ---- pairing ----

  function ReceiptIndex(rcs: seq<OpReceipt>): map<string, OpReceipt> {
    if rcs == [] then
      map[]
    else
      ReceiptIndex(rcs[..|rcs| - 1])[rcs[|rcs| - 1].opId := rcs[|rcs| - 1]]
  }

  lemma {:induction false} ReceiptIndexOf(rcs: seq<OpReceipt>)
    ensures forall id :: id in ReceiptIndex(rcs) ==> ReceiptIndex(rcs)[id] in rcs && ReceiptIndex(rcs)[id].opId == id
    ensures forall r :: r in rcs ==> r.opId in ReceiptIndex(rcs)
  {
    if rcs != [] {
      assert rcs == rcs[..|rcs| - 1] + [rcs[|rcs| - 1]];
      ReceiptIndexOf(rcs[..|rcs| - 1]);
    }
  }

  ghost predicate DistinctReceipts(rcs: seq<OpReceipt>) {
    forall i, j :: 0 <= i < j < |rcs| ==> rcs[i].opId != rcs[j].opId
  }

  ghost predicate Covers(byOp: map<string, OpReceipt>, cs: Changeset) {
    forall op :: op in cs.ops ==> op.opId in byOp
  }

  ghost predicate NoneForeign(byOp: map<string, OpReceipt>, cs: Changeset) {
    forall id :: id in byOp ==> exists op :: op in cs.ops && op.opId == id
  }

  /** Why a changeset and receipts do not cover the same operations, checked in this order. */
  ghost function PairError(cs: Changeset, rcs: seq<OpReceipt>): Option<IngestError> {
    if !DistinctReceipts(rcs) then Some(DuplicateReceipt)
    else if !Covers(ReceiptIndex(rcs), cs) then Some(MissingReceipt)
    else if !NoneForeign(ReceiptIndex(rcs), cs) then Some(ForeignReceipt)
    else None
  }

  lemma RepeatedReceipt(rcs: seq<OpReceipt>, k: nat)
    requires k < |rcs| && rcs[k].opId in ReceiptIndex(rcs[..k])
    ensures !DistinctReceipts(rcs)
  {
    ReceiptIndexOf(rcs[..k]);
    var j :| 0 <= j < k && rcs[..k][j] == ReceiptIndex(rcs[..k])[rcs[k].opId];
    assert rcs[j].opId == rcs[k].opId;
  }

  lemma NewReceipt(rcs: seq<OpReceipt>, k: nat)
    requires k < |rcs| && DistinctReceipts(rcs[..k]) && rcs[k].opId !in ReceiptIndex(rcs[..k])
    ensures DistinctReceipts(rcs[..k + 1])
    ensures ReceiptIndex(rcs[..k + 1]) == ReceiptIndex(rcs[..k])[rcs[k].opId := rcs[k]]
  {
    assert rcs[..k + 1][..k] == rcs[..k];
    ReceiptIndexOf(rcs[..k]);
    forall i | 0 <= i < k
      ensures rcs[i].opId != rcs[k].opId
    {
      assert rcs[..k][i] in rcs[..k];
    }
    var longer := rcs[..k + 1];
    forall i, j | 0 <= i < j < |longer|
      ensures longer[i].opId != longer[j].opId
    {
      if j < k {
        assert rcs[..k][i].opId != rcs[..k][j].opId;
      }
    }
  }

  method IndexReceipts(rcs: seq<OpReceipt>) returns (r: Option<map<string, OpReceipt>>)
    ensures r == if DistinctReceipts(rcs) then Some(ReceiptIndex(rcs)) else None
  {
    var byOp: map<string, OpReceipt> := map[];
    for k := 0 to |rcs|
      invariant byOp == ReceiptIndex(rcs[..k]) && DistinctReceipts(rcs[..k])
    {
      if rcs[k].opId in byOp {
        RepeatedReceipt(rcs, k);
        return None;
      }
      NewReceipt(rcs, k);
      byOp := byOp[rcs[k].opId := rcs[k]];
    }
    assert rcs[..|rcs|] == rcs;
    return Some(byOp);
  }

  function OpIds(ops: seq<Op>): set<string> {
    set op | op in ops :: op.opId
  }

  lemma CoverageByIds(byOp: map<string, OpReceipt>, cs: Changeset)
    ensures Covers(byOp, cs) <==> OpIds(cs.ops) <= byOp.Keys
    ensures NoneForeign(byOp, cs) <==> byOp.Keys <= OpIds(cs.ops)
  {
  }

  method SeenOps(cs: Changeset, receipted: set<string>) returns (covered: bool, seen: set<string>)
    ensures covered <==> OpIds(cs.ops) <= receipted
    ensures covered ==> seen == OpIds(cs.ops)
  {
    seen := {};
    for k := 0 to |cs.ops|
      invariant seen == OpIds(cs.ops[..k]) && seen <= receipted
    {
      assert cs.ops[k].opId in OpIds(cs.ops);
      if cs.ops[k].opId !in receipted {
        return false, seen;
      }
      assert cs.ops[..k + 1] == cs.ops[..k] + [cs.ops[k]];
      seen := seen + {cs.ops[k].opId};
    }
    assert cs.ops[..|cs.ops|] == cs.ops;
    return true, seen;
  }

  method PairReceipts(cs: Changeset, rcs: seq<OpReceipt>) returns (r: Result<map<string, OpReceipt>, IngestError>)
    ensures match PairError(cs, rcs)
            case Some(e) => r == Err(e)
            case None => r == Ok(ReceiptIndex(rcs))
  {
    var indexed := IndexReceipts(rcs);
    if indexed.None? {
      return Err(DuplicateReceipt);
    }
    var byOp := indexed.value;
    CoverageByIds(byOp, cs);
    var covered, seen := SeenOps(cs, byOp.Keys);
    if !covered {
      return Err(MissingReceipt);
    }
    if exists id :: id in byOp && id !in seen {
      return Err(ForeignReceipt);
    }
    return Ok(byOp);
  }

  // ---- the batch ----

  /** A proposal's latest registration. */
  function RegisteredBy(events: seq<Event>): map<string, string> {
    if events == [] then
      map[]
    else
      var m := RegisteredBy(events[..|events| - 1]);
      match events[|events| - 1]
      case Registered(eid, proposal, _) => m[proposal := eid]
      case _ => m
  }

  function StateFor(nodes: SpecNodes, journal: seq<Event>): BuilderState {
    BuilderState(nodes, FoldOf(journal), RegisteredBy(journal), EidSet(journal))
  }

  function WithBatch(st: BuilderState, batch: seq<Event>): BuilderState {
    st.(eids := st.eids + EidSet(batch))
  }

  /** The lines of the first n operations, each built against the eids of journal and batch so far. */
  function BatchUpTo(st: BuilderState, cs: Changeset, byOp: map<string, OpReceipt>, n: nat): Lines
    requires n <= |cs.ops| && Covers(byOp, cs)
  {
    if n == 0 then
      Ok([])
    else
      var before := BatchUpTo(st, cs, byOp, n - 1);
      if before.Err? then
        before
      else
        var op := cs.ops[n - 1];
        var lines := OpLines(WithBatch(st, before.value), cs, op, byOp[op.opId]);
        if lines.Err? then lines else Ok(before.value + lines.value)
  }

  function FullBatch(st: BuilderState, cs: Changeset, byOp: map<string, OpReceipt>): Lines
    requires Covers(byOp, cs)
  {
    var ops := BatchUpTo(st, cs, byOp, |cs.ops|);
    if ops.Err? then
      ops
    else
      var absorbed := AbsorbedLines(WithBatch(st, ops.value), cs);
      if absorbed.Err? then absorbed else Ok(ops.value + absorbed.value)
  }

  ghost predicate AllValid(declared: set<string>, batch: seq<Event>) {
    forall e :: e in batch ==> LineValid(declared, e)
  }

  ghost function Gate(declared: set<string>, journal: seq<Event>, batch: seq<Event>): Lines {
    if batch == [] then Ok([])
    else if !SinglyPaired(journal + batch) then Err(DoublePairing)
    else if !Answered(journal, batch) then Err(UnknownReferent)
    else if !AllValid(declared, batch) then Err(BadLine)
    else Ok(batch)
  }

  /** What a run would append to this journal, or why it refuses. */
  ghost function Reconcile(nodes: SpecNodes, declared: set<string>, journal: seq<Event>, cs: Changeset, rcs: seq<OpReceipt>): Lines {
    match PairError(cs, rcs)
    case Some(e) => Err(e)
    case None =>
      var batch := FullBatch(StateFor(nodes, journal), cs, ReceiptIndex(rcs));
      if batch.Err? then batch else Gate(declared, journal, batch.value)
  }

  lemma {:induction false} BatchFails(st: BuilderState, cs: Changeset, byOp: map<string, OpReceipt>, n: nat)
    requires n <= |cs.ops| && Covers(byOp, cs) && BatchUpTo(st, cs, byOp, n).Err?
    ensures BatchUpTo(st, cs, byOp, |cs.ops|) == BatchUpTo(st, cs, byOp, n)
    decreases |cs.ops| - n
  {
    if n < |cs.ops| {
      BatchFails(st, cs, byOp, n + 1);
    }
  }

  // ---- the tally ----

  datatype ReconcileSummary = ReconcileSummary(
    okCreates: nat, okCloses: nat, okRetargets: nat, skipped: nat, errors: nat,
    eventsAppended: nat, receiptsAppended: nat)

  function TallyOp(s: ReconcileSummary, op: Op, status: OpStatus): ReconcileSummary {
    match status
    case StatusError => s.(errors := s.errors + 1)
    case StatusSkipped => s.(skipped := s.skipped + 1)
    case StatusUnknown => s
    case StatusOk =>
      match op.kind
      case Create => s.(okCreates := s.okCreates + 1)
      case Close => s.(okCloses := s.okCloses + 1)
      case Retarget => s.(okRetargets := s.okRetargets + 1)
      case UnknownOp => s
  }

  function Tally(cs: Changeset, byOp: map<string, OpReceipt>, n: nat): ReconcileSummary
    requires n <= |cs.ops| && Covers(byOp, cs)
  {
    if n == 0 then
      ReconcileSummary(0, 0, 0, 0, 0, 0, 0)
    else
      TallyOp(Tally(cs, byOp, n - 1), cs.ops[n - 1], byOp[cs.ops[n - 1].opId].status)
  }

  function TallyLine(s: ReconcileSummary, e: Event): ReconcileSummary {
    match e
    case Change(_, _, _, _, _, _, _, _, _, _, _) => s.(eventsAppended := s.eventsAppended + 1)
    case Registered(_, _, _) => s
    case _ => s.(receiptsAppended := s.receiptsAppended + 1)
  }

  function TallyLines(s: ReconcileSummary, batch: seq<Event>): ReconcileSummary {
    if batch == [] then s else TallyLine(TallyLines(s, batch[..|batch| - 1]), batch[|batch| - 1])
  }

  // ---- the run ----

  /** The journal file: appended to as a whole or not at all. */
  class JournalStore {
    var lines: seq<Event>

    constructor ()
      ensures lines == []
    {
      lines := [];
    }

    /** `writable` stands for whether the file system lets the rename through. */
    method Append(batch: seq<Event>, writable: bool) returns (ok: bool)
      modifies this
      ensures ok <==> batch == [] || (writable && forall e :: e in batch ==> LineShape(e))
      ensures lines == if ok then old(lines) + batch else old(lines)
    {
      if batch == [] {
        return true;
      }
      for k := 0 to |batch|
        invariant lines == old(lines)
        invariant forall e :: e in batch[..k] ==> LineShape(e)
      {
        if !LineShape(batch[k]) {
          return false;
        }
        assert batch[..k + 1] == batch[..k] + [batch[k]];
      }
      assert batch[..|batch|] == batch;
      if writable {
        lines := lines + batch;
      }
      return writable;
    }
  }

  class Reconciler {
    const nodes: SpecNodes
    const declared: set<string>
    const store: JournalStore

    constructor (nodes: SpecNodes, declared: set<string>, store: JournalStore)
      ensures this.nodes == nodes && this.declared == declared && this.store == store
    {
      this.nodes, this.declared, this.store := nodes, declared, store;
    }

    /** Builds the operations' lines and the tally of their receipts. */
    method BuildOps(cs: Changeset, byOp: map<string, OpReceipt>, st: BuilderState)
      returns (batch: Lines, sum: ReconcileSummary)
      requires Covers(byOp, cs)
      ensures batch == BatchUpTo(st, cs, byOp, |cs.ops|)
      ensures batch.Ok? ==> sum == Tally(cs, byOp, |cs.ops|)
    {
      var lines: seq<Event> := [];
      var batchEids: set<string> := {};
      sum := ReconcileSummary(0, 0, 0, 0, 0, 0, 0);
      for k := 0 to |cs.ops|
        invariant BatchUpTo(st, cs, byOp, k) == Ok(lines)
        invariant batchEids == EidSet(lines)
        invariant sum == Tally(cs, byOp, k)
      {
        var op := cs.ops[k];
        assert op in cs.ops;
        var receipt := byOp[op.opId];
        var built := OpLines(st.(eids := st.eids + batchEids), cs, op, receipt);
        if built.Err? {
          BatchFails(st, cs, byOp, k + 1);
          return built, sum;
        }
        EidSetConcat(lines, built.value);
        sum := TallyOp(sum, op, receipt.status);
        lines := lines + built.value;
        batchEids := batchEids + EidSet(built.value);
      }
      batch := Ok(lines);
    }

    /** Checks the batch against the journal, in invariant order. */
    method Check(journal: seq<Event>, batch: seq<Event>) returns (r: Lines)
      ensures r == Gate(declared, journal, batch)
    {
      if batch == [] {
        return Ok([]);
      }
      var single := CheckInvariant1(journal, batch);
      if !single {
        return Err(DoublePairing);
      }
      var answered := CheckInvariant2(journal, batch);
      if !answered {
        return Err(UnknownReferent);
      }
      for k := 0 to |batch|
        invariant forall e :: e in batch[..k] ==> LineValid(declared, e)
      {
        if !LineValid(declared, batch[k]) {
          assert batch[k] in batch;
          return Err(BadLine);
        }
        assert batch[..k + 1] == batch[..k] + [batch[k]];
      }
      assert batch[..|batch|] == batch;
      return Ok(batch);
    }

    /** Builds and gates the whole batch; nothing is written yet. */
    method Prepare(cs: Changeset, rcs: seq<OpReceipt>) returns (r: Lines, sum: ReconcileSummary)
      ensures r == Reconcile(nodes, declared, store.lines, cs, rcs)
      ensures r.Ok? ==> Covers(ReceiptIndex(rcs), cs) && sum == Tally(cs, ReceiptIndex(rcs), |cs.ops|)
    {
      sum := ReconcileSummary(0, 0, 0, 0, 0, 0, 0);
      var paired := PairReceipts(cs, rcs);
      if paired.Err? {
        return Err(paired.error), sum;
      }
      var existing := store.lines;
      var fold := FoldJournal(existing);
      var st := BuilderState(nodes, fold, RegisteredBy(existing), EidSet(existing));
      var ops;
      ops, sum := BuildOps(cs, paired.value, st);
      if ops.Err? {
        return ops, sum;
      }
      var absorbed := BuildAbsorbed(WithBatch(st, ops.value), cs);
      if absorbed.Err? {
        return absorbed, sum;
      }
      r := Check(existing, ops.value + absorbed.value);
    }

    /** One ingest run.  On any refusal, and when the write fails, the journal is left as it was. */
    method Apply(cs: Changeset, rcs: seq<OpReceipt>, writable: bool) returns (r: Result<ReconcileSummary, IngestError>)
      modifies store
      ensures match Reconcile(nodes, declared, old(store.lines), cs, rcs)
              case Err(e) => r == Err(e) && store.lines == old(store.lines)
              case Ok(batch) =>
                if batch != [] && !writable then
                  r == Err(WriteFailed) && store.lines == old(store.lines)
                else
                  && store.lines == old(store.lines) + batch
                  && Covers(ReceiptIndex(rcs), cs)
                  && r == Ok(TallyLines(Tally(cs, ReceiptIndex(rcs), |cs.ops|), batch))
    {
      var prepared, sum := Prepare(cs, rcs);
      if prepared.Err? {
        return Err(prepared.error);
      }
      var batch := prepared.value;
      if |batch| > 0 {
        var written := store.Append(batch, writable);
        if !written {
          return Err(WriteFailed);
        }
      }
      sum := CountLines(sum, batch);
      return Ok(sum);
    }

    method CountLines(start: ReconcileSummary, batch: seq<Event>) returns (sum: ReconcileSummary)
      ensures sum == TallyLines(start, batch)
    {
      sum := start;
      for k := 0 to |batch|
        invariant sum == TallyLines(start, batch[..k])
      {
        assert batch[..k + 1][..k] == batch[..k];
        sum := TallyLine(sum, batch[k]);
      }
      assert batch[..|batch|] == batch;
    }
  }

  lemma EidSetConcat(a: seq<Event>, b: seq<Event>)
    ensures EidSet(a + b) == EidSet(a) + EidSet(b)
  {
  }

  /** Every operation is counted once, and every line of the batch once. */
  lemma {:induction false} TallyComplete(cs: Changeset, byOp: map<string, OpReceipt>, st: BuilderState, n: nat)
    requires n <= |cs.ops| && Covers(byOp, cs) && BatchUpTo(st, cs, byOp, n).Ok?
    ensures var s := Tally(cs, byOp, n); s.okCreates + s.okCloses + s.okRetargets + s.skipped + s.errors == n
    ensures Tally(cs, byOp, n).eventsAppended == 0 && Tally(cs, byOp, n).receiptsAppended == 0
  {
    if n > 0 {
      TallyComplete(cs, byOp, st, n - 1);
    }
  }

  lemma {:induction false} TallyLinesComplete(s: ReconcileSummary, batch: seq<Event>)
    requires forall e :: e in batch ==> !e.Registered?
    ensures TallyLines(s, batch).eventsAppended + TallyLines(s, batch).receiptsAppended ==
            s.eventsAppended + s.receiptsAppended + |batch|
  {
    if batch != [] {
      TallyLinesComplete(s, batch[..|batch| - 1]);
    }
  }
}
