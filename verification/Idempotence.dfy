/**
 Running the same changeset and receipts twice appends nothing the second time.
 */
module Idempotence {
  import opened Results
  import opened PlanTypes
  import opened Journal
  import opened FoldSpec
  import opened JournalGrowth
  import opened EventBuilder
  import opened InvariantChecker
  import opened Reconciler
  import opened IngestLaws

  /** The lines of the first n operations. */
  function Part(st: BuilderState, cs: Changeset, byOp: map<string, OpReceipt>, n: nat): seq<Event>
    requires n <= |cs.ops| && Covers(byOp, cs)
  {
    var b := BatchUpTo(st, cs, byOp, n);
    if b.Ok? then b.value else []
  }

  /** The lines of operation i alone. */
  function OpPart(st: BuilderState, cs: Changeset, byOp: map<string, OpReceipt>, i: nat): Lines
    requires i < |cs.ops| && Covers(byOp, cs)
  {
    OpLines(WithBatch(st, Part(st, cs, byOp, i)), cs, cs.ops[i], byOp[cs.ops[i].opId])
  }

  lemma {:induction false} BatchParts(st: BuilderState, cs: Changeset, byOp: map<string, OpReceipt>, i: nat, n: nat)
    requires i <= n <= |cs.ops| && Covers(byOp, cs) && BatchUpTo(st, cs, byOp, n).Ok?
    ensures BatchUpTo(st, cs, byOp, i) == Ok(Part(st, cs, byOp, i))
    ensures Part(st, cs, byOp, i) <= Part(st, cs, byOp, n)
    ensures i < n ==> OpPart(st, cs, byOp, i).Ok? &&
                      Part(st, cs, byOp, i + 1) == Part(st, cs, byOp, i) + OpPart(st, cs, byOp, i).value
    decreases n
  {
    hide OpLines, EidSet;
    if i < n {
      BatchParts(st, cs, byOp, i, n - 1);
      if i + 1 < n {
        BatchParts(st, cs, byOp, i + 1, n - 1);
      }
    }
  }

  /** Each operation leaves the journal sound. */
  lemma {:induction false} ChainSound(nodes: SpecNodes, base: seq<Event>, cs: Changeset, byOp: map<string, OpReceipt>, n: nat)
    requires Sound(base) && n <= |cs.ops| && Covers(byOp, cs) && BatchUpTo(StateFor(nodes, base), cs, byOp, n).Ok?
    ensures Sound(base + Part(StateFor(nodes, base), cs, byOp, n))
  {
    var st := StateFor(nodes, base);
    if n == 0 {
      assert base + Part(st, cs, byOp, 0) == base;
    } else {
      ChainSound(nodes, base, cs, byOp, n - 1);
      ChainStep(nodes, base, cs, byOp, n - 1);
    }
  }

  lemma ChainStep(nodes: SpecNodes, base: seq<Event>, cs: Changeset, byOp: map<string, OpReceipt>, i: nat)
    requires Sound(base) && i < |cs.ops| && Covers(byOp, cs) && BatchUpTo(StateFor(nodes, base), cs, byOp, i + 1).Ok?
    requires Sound(base + Part(StateFor(nodes, base), cs, byOp, i))
    ensures var st := StateFor(nodes, base);
            var before, after := base + Part(st, cs, byOp, i), base + Part(st, cs, byOp, i + 1);
            && Sound(after) && OtherKeysStay(before, after, KeyOf(base, cs.ops[i])) && OpPart(st, cs, byOp, i).Ok?
            && MovesTo(before, after, cs.ops[i], byOp[cs.ops[i].opId])
            && (OpPart(st, cs, byOp, i).value != [] ==>
                  KeyOf(base, cs.ops[i]).Some? &&
                  Lands(after, cs.ops[i], byOp[cs.ops[i].opId], OpPart(st, cs, byOp, i).value, KeyOf(base, cs.ops[i]).value))
  {
    hide OpLines, Linkage, DistinctEids, NoDangling, FoldOf;
    var st := StateFor(nodes, base);
    BatchParts(st, cs, byOp, i, i + 1);
    var batch, lines := Part(st, cs, byOp, i), OpPart(st, cs, byOp, i).value;
    assert base + Part(st, cs, byOp, i + 1) == base + batch + lines;
    OpMoves(WithBatch(st, batch), base, batch, cs, cs.ops[i], byOp[cs.ops[i].opId], lines);
  }

  /** Operation i moves key k: its receipt is ok and k is where its lines go. */
  predicate Touches(base: seq<Event>, cs: Changeset, byOp: map<string, OpReceipt>, i: nat, k: string)
    requires i < |cs.ops| && Covers(byOp, cs)
  {
    byOp[cs.ops[i].opId].status == StatusOk && KeyOf(base, cs.ops[i]) == Some(k)
  }

  lemma NothingUnlessOk(st: BuilderState, cs: Changeset, op: Op, rc: OpReceipt)
    requires OpLines(st, cs, op, rc).Ok? && rc.status != StatusOk
    ensures OpLines(st, cs, op, rc) == Ok([])
  {
  }

  /** A key no operation of a stretch touches keeps its linkage across it. */
  lemma {:induction false} Untouched(nodes: SpecNodes, base: seq<Event>, cs: Changeset, byOp: map<string, OpReceipt>, m: nat, n: nat, k: string)
    requires Sound(base) && m <= n <= |cs.ops| && Covers(byOp, cs) && BatchUpTo(StateFor(nodes, base), cs, byOp, n).Ok?
    requires forall i :: m <= i < n ==> !Touches(base, cs, byOp, i, k)
    ensures var st := StateFor(nodes, base);
            Linkage(base + Part(st, cs, byOp, n), k) == Linkage(base + Part(st, cs, byOp, m), k)
  {
    hide OpLines, Linkage, Sound, KeyOf, FoldOf, EidSet;
    if m < n {
      var st := StateFor(nodes, base);
      BatchParts(st, cs, byOp, n - 1, n);
      Untouched(nodes, base, cs, byOp, m, n - 1, k);
      ChainSound(nodes, base, cs, byOp, n - 1);
      ChainStep(nodes, base, cs, byOp, n - 1);
      assert !Touches(base, cs, byOp, n - 1, k);
      if byOp[cs.ops[n - 1].opId].status != StatusOk {
        NothingUnlessOk(WithBatch(st, Part(st, cs, byOp, n - 1)), cs, cs.ops[n - 1], byOp[cs.ops[n - 1].opId]);
        assert Part(st, cs, byOp, n) == Part(st, cs, byOp, n - 1);
      }
    }
  }

  // ---- absorbed lines ----

  lemma {:induction false} AbsorbedForm(st: BuilderState, cs: Changeset, entries: seq<AbsorbedEntry>)
    requires AbsorbedEvents(st, cs, entries).Ok?
    ensures forall e :: e in AbsorbedEvents(st, cs, entries).value ==>
              e.Change? && e.change == Modified && e.eid !in st.eids && e.eid != ""
    ensures forall x :: x in entries ==>
              AbsorbedEid(x) in st.eids || exists e :: e in AbsorbedEvents(st, cs, entries).value && e.Change? && e.eid == AbsorbedEid(x)
  {
    if entries != [] {
      var init, last := entries[..|entries| - 1], entries[|entries| - 1];
      assert entries == init + [last];
      AbsorbedForm(st, cs, init);
      var lines := AbsorbedEvents(st, cs, entries).value;
      forall x | x in entries && AbsorbedEid(x) !in st.eids
        ensures exists e :: e in lines && e.Change? && e.eid == AbsorbedEid(x)
      {
        if x in init {
          var e :| e in AbsorbedEvents(st, cs, init).value && e.Change? && e.eid == AbsorbedEid(x);
          assert e in lines;
        } else {
          assert lines[|lines| - 1].eid == AbsorbedEid(x);
        }
      }
    }
  }

  /** The fold passes over everything the absorbed entries contribute, and their eids are new. */
  lemma AbsorbedSilent(st: BuilderState, cs: Changeset)
    requires AbsorbedLines(st, cs).Ok?
    ensures forall e :: e in AbsorbedLines(st, cs).value ==> PassedOver(e) && (Named(e) ==> e.eid !in st.eids)
    ensures forall x :: x in cs.absorbed ==> AbsorbedEid(x) in st.eids + EidSet(AbsorbedLines(st, cs).value)
  {
    AbsorbedForm(st, cs, cs.absorbed);
    var events := AbsorbedEvents(st, cs, cs.absorbed).value;
    var lines := AbsorbedLines(st, cs).value;
    assert forall e :: e in events ==> e in lines;
    forall x | x in cs.absorbed && AbsorbedEid(x) !in st.eids
      ensures AbsorbedEid(x) in EidSet(lines)
    {
      var e :| e in events && e.Change? && e.eid == AbsorbedEid(x);
      assert e in lines && EidOf(e) == AbsorbedEid(x);
    }
  }

  lemma {:induction false} AbsorbedRepeats(st: BuilderState, cs: Changeset, entries: seq<AbsorbedEntry>)
    requires forall x :: x in entries ==> AbsorbedEid(x) in st.eids
    ensures AbsorbedEvents(st, cs, entries) == Ok([])
  {
    if entries != [] {
      var init := entries[..|entries| - 1];
      assert entries == init + [entries[|entries| - 1]];
      AbsorbedRepeats(st, cs, init);
    }
  }

  // ---- the second run ----

  /** The fold already answers this operation: the epic exists, or the cleanup landed. */
  ghost predicate FoldAnswers(journal: seq<Event>, cs: Changeset, op: Op) {
    op.kind == Create ==>
      var e := Linkage(journal, op.node);
      && (op.nodeKind == KIND_PROPOSAL_EPIC ==> e.Some?)
      && (op.nodeKind != KIND_PROPOSAL_EPIC && op.nodeKind == KIND_CLEANUP ==>
            e.Some? && if e.value.removed then e.value.task != "" else OpEid(cs, op) in EidSet(journal))
  }

  lemma CreateRepeats(st: BuilderState, later: BuilderState, journal: seq<Event>, cs: Changeset, op: Op, rc: OpReceipt)
    requires op.kind == Create && BuildCreate(st, cs, op, rc).Ok? && later.fold == FoldOf(journal)
    requires st.eids + EidSet(BuildCreate(st, cs, op, rc).value) <= later.eids && EidSet(journal) <= later.eids
    requires FoldAnswers(journal, cs, op)
    ensures BuildCreate(later, cs, op, rc) == Ok([])
  {
    hide FoldOf, Linkage, RemovalOf, PriorHash, NonEmpty;
    var lines := BuildCreate(st, cs, op, rc).value;
    if lines != [] {
      assert lines[0] in lines;
      assert Named(lines[0]) && EidOf(lines[0]) != "" ==> EidOf(lines[0]) in EidSet(lines);
    }
    KeyLookup(journal, op.node);
  }

  lemma CloseRepeats(st: BuilderState, later: BuilderState, cs: Changeset, op: Op, rc: OpReceipt)
    requires BuildClose(st, cs, op, rc).Ok? && st.eids + EidSet(BuildClose(st, cs, op, rc).value) <= later.eids
    ensures BuildClose(later, cs, op, rc) == Ok([])
  {
    hide NonEmpty, EntryByTask;
    var lines := BuildClose(st, cs, op, rc).value;
    if lines != [] {
      assert lines[0] in lines && EidOf(lines[0]) in EidSet(lines);
    }
  }

  lemma RetargetRepeats(st: BuilderState, later: BuilderState, cs: Changeset, op: Op)
    requires BuildRetarget(st, cs, op).Ok? && st.eids + EidSet(BuildRetarget(st, cs, op).value) <= later.eids
    ensures BuildRetarget(later, cs, op) == Ok([])
  {
    hide PriorHash;
    var lines := BuildRetarget(st, cs, op).value;
    if lines != [] {
      assert lines[0] in lines && EidOf(lines[0]) in EidSet(lines);
    }
  }

  lemma OpRepeats(st: BuilderState, later: BuilderState, journal: seq<Event>, cs: Changeset, op: Op, rc: OpReceipt)
    requires OpLines(st, cs, op, rc).Ok? && later.fold == FoldOf(journal)
    requires st.eids + EidSet(OpLines(st, cs, op, rc).value) <= later.eids && EidSet(journal) <= later.eids
    requires rc.status == StatusOk ==> FoldAnswers(journal, cs, op)
    ensures OpLines(later, cs, op, rc) == Ok([])
  {
    hide BuildCreate, BuildClose, BuildRetarget, FoldAnswers, FoldOf, EidSet;
    if rc.status == StatusOk {
      match op.kind
      case Create => CreateRepeats(st, later, journal, cs, op, rc);
      case Close => CloseRepeats(st, later, cs, op, rc);
      case Retarget => RetargetRepeats(st, later, cs, op);
      case UnknownOp =>
    }
  }

  /** No other landed operation files lines under a cleanup's key. */
  ghost predicate CleanupsAlone(base: seq<Event>, cs: Changeset, byOp: map<string, OpReceipt>)
    requires Covers(byOp, cs)
  {
    forall c, i :: 0 <= c < |cs.ops| && 0 <= i < |cs.ops| && i != c
      && cs.ops[c].kind == Create && cs.ops[c].nodeKind == KIND_CLEANUP && Touches(base, cs, byOp, c, cs.ops[c].node)
      ==> !Touches(base, cs, byOp, i, cs.ops[c].node)
  }

  /** A linkage outlives whatever is appended. */
  lemma LinkagePersists(base: seq<Event>, more: seq<Event>, k: string)
    requires Sound(base) && (forall e :: e in more && Named(e) ==> !Carried(base, e.eid))
    requires Linkage(base, k).Some?
    ensures Linkage(base + more, k).Some?
  {
    EntryStable(base, more, k, |base|);
    EntryStays(base + more, Index(base + more), k, |base|, |base + more|);
  }

  /** A run that went through, and the lines it appended. */
  ghost predicate Ran(nodes: SpecNodes, base: seq<Event>, cs: Changeset, byOp: map<string, OpReceipt>, batch: seq<Event>)
    requires Covers(byOp, cs)
  {
    Sound(base) && FullBatch(StateFor(nodes, base), cs, byOp) == Ok(batch)
  }

  lemma RunSplits(nodes: SpecNodes, base: seq<Event>, cs: Changeset, byOp: map<string, OpReceipt>, batch: seq<Event>) returns (absorbed: seq<Event>)
    requires Covers(byOp, cs) && Ran(nodes, base, cs, byOp, batch)
    ensures var ops := Part(StateFor(nodes, base), cs, byOp, |cs.ops|);
            && BatchUpTo(StateFor(nodes, base), cs, byOp, |cs.ops|) == Ok(ops)
            && batch == ops + absorbed && Sound(base + ops)
            && AbsorbedLines(WithBatch(StateFor(nodes, base), ops), cs) == Ok(absorbed)
  {
    var st := StateFor(nodes, base);
    var ops := Part(st, cs, byOp, |cs.ops|);
    ChainSound(nodes, base, cs, byOp, |cs.ops|);
    absorbed := AbsorbedLines(WithBatch(st, ops), cs).value;
  }

  /** After the run, the linkage of a key is what the operations left. */
  lemma AfterRun(nodes: SpecNodes, base: seq<Event>, cs: Changeset, byOp: map<string, OpReceipt>, batch: seq<Event>, k: string)
    requires Covers(byOp, cs) && Ran(nodes, base, cs, byOp, batch)
    ensures Sound(base) && BatchUpTo(StateFor(nodes, base), cs, byOp, |cs.ops|).Ok?
    ensures Linkage(base + batch, k) == Linkage(base + Part(StateFor(nodes, base), cs, byOp, |cs.ops|), k)
  {
    hide OpLines, AbsorbedLines, FullBatch, Linkage, DistinctEids, NoDangling, FoldOf, PassedOver;
    var st := StateFor(nodes, base);
    var ops := Part(st, cs, byOp, |cs.ops|);
    var absorbed := RunSplits(nodes, base, cs, byOp, batch);
    AbsorbedSilent(WithBatch(st, ops), cs);
    EidSetConcat(base, ops);
    EidSetCarried(base + ops);
    AppendSilent(base + ops, absorbed, k);
    assert base + ops + absorbed == base + batch;
  }

  /** Eids only grow, and the absorbed entries' eids are among them. */
  lemma AfterRunEids(nodes: SpecNodes, base: seq<Event>, cs: Changeset, byOp: map<string, OpReceipt>, batch: seq<Event>)
    requires Covers(byOp, cs) && Ran(nodes, base, cs, byOp, batch)
    ensures Part(StateFor(nodes, base), cs, byOp, |cs.ops|) <= batch
    ensures EidSet(base) + EidSet(batch) == EidSet(base + batch)
    ensures forall x :: x in cs.absorbed ==> AbsorbedEid(x) in EidSet(base + batch)
  {
    var st := StateFor(nodes, base);
    var ops := Part(st, cs, byOp, |cs.ops|);
    var absorbed := RunSplits(nodes, base, cs, byOp, batch);
    AbsorbedSilent(WithBatch(st, ops), cs);
    EidSetConcat(ops, absorbed);
    EidSetConcat(base, batch);
  }

  lemma SubsetEids(a: seq<Event>, b: seq<Event>)
    requires a <= b
    ensures EidSet(a) <= EidSet(b)
  {
    assert b == a + b[|a|..];
    EidSetConcat(a, b[|a|..]);
  }

  /** What the first run left is enough for each operation to be recognised. */
  lemma RunAnswers(nodes: SpecNodes, base: seq<Event>, cs: Changeset, byOp: map<string, OpReceipt>, batch: seq<Event>, i: nat)
    requires Covers(byOp, cs) && Ran(nodes, base, cs, byOp, batch) && CleanupsAlone(base, cs, byOp)
    requires i < |cs.ops| && byOp[cs.ops[i].opId].status == StatusOk && AllTasked(batch)
    ensures FoldAnswers(base + batch, cs, cs.ops[i])
  {
    var op := cs.ops[i];
    if op.kind == Create {
      if op.nodeKind == KIND_PROPOSAL_EPIC {
        AfterRun(nodes, base, cs, byOp, batch, op.node);
        EpicStays(nodes, base, cs, byOp, i);
      } else if op.nodeKind == KIND_CLEANUP {
        CleanupStays(nodes, base, cs, byOp, batch, i);
      }
    }
  }

  ghost predicate AllTasked(batch: seq<Event>) {
    forall e :: e in batch && e.Receipt? ==> e.task != ""
  }

  lemma PartFresh(nodes: SpecNodes, base: seq<Event>, cs: Changeset, byOp: map<string, OpReceipt>, i: nat, n: nat)
    requires Sound(base) && i <= n <= |cs.ops| && Covers(byOp, cs) && BatchUpTo(StateFor(nodes, base), cs, byOp, n).Ok?
    ensures var st := StateFor(nodes, base);
            var a, b := base + Part(st, cs, byOp, i), base + Part(st, cs, byOp, n);
            a <= b && Sound(a) && Sound(b) && forall e :: e in b[|a|..] && Named(e) ==> !Carried(a, e.eid)
  {
    var st := StateFor(nodes, base);
    BatchParts(st, cs, byOp, i, n);
    ChainSound(nodes, base, cs, byOp, i);
    ChainSound(nodes, base, cs, byOp, n);
    var a, b := base + Part(st, cs, byOp, i), base + Part(st, cs, byOp, n);
    forall e | e in b[|a|..] && Named(e)
      ensures !Carried(a, e.eid)
    {
      var j :| |a| <= j < |b| && b[j] == e;
      forall l | 0 <= l < |a| && Named(a[l])
        ensures a[l].eid != e.eid
      {
        assert b[l] == a[l];
      }
    }
  }

  /** A key linked after the first i operations is still linked after all of them. */
  lemma PartPersists(nodes: SpecNodes, base: seq<Event>, cs: Changeset, byOp: map<string, OpReceipt>, i: nat, k: string)
    requires Sound(base) && i <= |cs.ops| && Covers(byOp, cs) && BatchUpTo(StateFor(nodes, base), cs, byOp, |cs.ops|).Ok?
    requires Linkage(base + Part(StateFor(nodes, base), cs, byOp, i), k).Some?
    ensures Linkage(base + Part(StateFor(nodes, base), cs, byOp, |cs.ops|), k).Some?
  {
    var st, n := StateFor(nodes, base), |cs.ops|;
    PartFresh(nodes, base, cs, byOp, i, n);
    var mid, last := base + Part(st, cs, byOp, i), base + Part(st, cs, byOp, n);
    assert mid + last[|mid|..] == last;
    LinkagePersists(mid, last[|mid|..], k);
  }

  lemma EpicLands(st: BuilderState, cs: Changeset, op: Op, rc: OpReceipt)
    requires op.kind == Create && op.nodeKind == KIND_PROPOSAL_EPIC && rc.status == StatusOk
    requires OpLines(st, cs, op, rc).Ok? && EntryByKey(st.fold.entries, op.node).None?
    ensures OpLines(st, cs, op, rc).value != []
  {
  }

  lemma EpicStays(nodes: SpecNodes, base: seq<Event>, cs: Changeset, byOp: map<string, OpReceipt>, i: nat)
    requires Sound(base) && i < |cs.ops| && Covers(byOp, cs) && BatchUpTo(StateFor(nodes, base), cs, byOp, |cs.ops|).Ok?
    requires cs.ops[i].kind == Create && cs.ops[i].nodeKind == KIND_PROPOSAL_EPIC
    requires byOp[cs.ops[i].opId].status == StatusOk
    ensures Linkage(base + Part(StateFor(nodes, base), cs, byOp, |cs.ops|), cs.ops[i].node).Some?
  {
    hide OpLines, Linkage, FoldOf, EidSet, Sound;
    var st, n, k := StateFor(nodes, base), |cs.ops|, cs.ops[i].node;
    if Linkage(base, k).Some? {
      assert base + Part(st, cs, byOp, 0) == base;
      PartPersists(nodes, base, cs, byOp, 0, k);
    } else {
      BatchParts(st, cs, byOp, i, n);
      BatchParts(st, cs, byOp, i + 1, n);
      ChainSound(nodes, base, cs, byOp, i);
      ChainStep(nodes, base, cs, byOp, i);
      KeyLookup(base, k);
      EpicLands(WithBatch(st, Part(st, cs, byOp, i)), cs, cs.ops[i], byOp[cs.ops[i].opId]);
      PartPersists(nodes, base, cs, byOp, i + 1, k);
    }
  }

  lemma CleanupTouches(base: seq<Event>, cs: Changeset, byOp: map<string, OpReceipt>, i: nat)
    requires Covers(byOp, cs) && i < |cs.ops| && byOp[cs.ops[i].opId].status == StatusOk
    requires cs.ops[i].kind == Create
    ensures Touches(base, cs, byOp, i, cs.ops[i].node)
  {
  }

  /** A cleanup's key is moved by the cleanup alone. */
  lemma CleanupKey(nodes: SpecNodes, base: seq<Event>, cs: Changeset, byOp: map<string, OpReceipt>, batch: seq<Event>, i: nat)
    requires Covers(byOp, cs) && Ran(nodes, base, cs, byOp, batch) && CleanupsAlone(base, cs, byOp)
    requires i < |cs.ops| && byOp[cs.ops[i].opId].status == StatusOk
    requires cs.ops[i].kind == Create && cs.ops[i].nodeKind == KIND_CLEANUP
    ensures var st, k := StateFor(nodes, base), cs.ops[i].node;
            && Linkage(base + Part(st, cs, byOp, i), k) == Linkage(base, k)
            && Linkage(base + batch, k) == Linkage(base + Part(st, cs, byOp, i + 1), k)
  {
    hide OpLines, Linkage, FoldOf, EidSet, Ran, KeyOf, StateFor;
    var st, k, n := StateFor(nodes, base), cs.ops[i].node, |cs.ops|;
    CleanupTouches(base, cs, byOp, i);
    AfterRun(nodes, base, cs, byOp, batch, k);
    BatchParts(st, cs, byOp, i, n);
    Untouched(nodes, base, cs, byOp, 0, i, k);
    Untouched(nodes, base, cs, byOp, i + 1, n, k);
    assert base + Part(st, cs, byOp, 0) == base;
  }

  lemma CleanupStays(nodes: SpecNodes, base: seq<Event>, cs: Changeset, byOp: map<string, OpReceipt>, batch: seq<Event>, i: nat)
    requires Covers(byOp, cs) && Ran(nodes, base, cs, byOp, batch) && CleanupsAlone(base, cs, byOp)
    requires i < |cs.ops| && byOp[cs.ops[i].opId].status == StatusOk
    requires cs.ops[i].kind == Create && cs.ops[i].nodeKind == KIND_CLEANUP && AllTasked(batch)
    ensures FoldAnswers(base + batch, cs, cs.ops[i])
  {
    hide OpLines, Linkage, DistinctEids, NoDangling, FoldOf, EidSet;
    var st, op := StateFor(nodes, base), cs.ops[i];
    CleanupKey(nodes, base, cs, byOp, batch, i);
    AfterRun(nodes, base, cs, byOp, batch, op.node);
    BatchParts(st, cs, byOp, i, |cs.ops|);
    if OpPart(st, cs, byOp, i).value == [] {
      assert Part(st, cs, byOp, i + 1) == Part(st, cs, byOp, i);
      CleanupFound(nodes, base, cs, byOp, batch, i);
    } else {
      CleanupLanded(nodes, base, cs, byOp, batch, i);
    }
  }

  lemma CleanupFound(nodes: SpecNodes, base: seq<Event>, cs: Changeset, byOp: map<string, OpReceipt>, batch: seq<Event>, i: nat)
    requires Covers(byOp, cs) && Ran(nodes, base, cs, byOp, batch) && CleanupsAlone(base, cs, byOp)
    requires i < |cs.ops| && byOp[cs.ops[i].opId].status == StatusOk
    requires cs.ops[i].kind == Create && cs.ops[i].nodeKind == KIND_CLEANUP
    requires OpPart(StateFor(nodes, base), cs, byOp, i) == Ok([])
    ensures var e := Linkage(base, cs.ops[i].node);
            e.Some? && if e.value.removed then e.value.task != "" else OpEid(cs, cs.ops[i]) in EidSet(base + batch)
  {
    hide OpLines, Linkage, DistinctEids, NoDangling, FoldOf, EidSet;
    var st, op := StateFor(nodes, base), cs.ops[i];
    AfterRun(nodes, base, cs, byOp, batch, op.node);
    AfterRunEids(nodes, base, cs, byOp, batch);
    BatchParts(st, cs, byOp, i, |cs.ops|);
    SubsetEids(Part(st, cs, byOp, i), batch);
    KeyLookup(base, op.node);
    CleanupSilent(WithBatch(st, Part(st, cs, byOp, i)), cs, op, byOp[op.opId]);
  }

  lemma CleanupLanded(nodes: SpecNodes, base: seq<Event>, cs: Changeset, byOp: map<string, OpReceipt>, batch: seq<Event>, i: nat)
    requires Covers(byOp, cs) && Ran(nodes, base, cs, byOp, batch) && CleanupsAlone(base, cs, byOp)
    requires i < |cs.ops| && byOp[cs.ops[i].opId].status == StatusOk
    requires cs.ops[i].kind == Create && cs.ops[i].nodeKind == KIND_CLEANUP && AllTasked(batch)
    requires OpPart(StateFor(nodes, base), cs, byOp, i).Ok? && OpPart(StateFor(nodes, base), cs, byOp, i).value != []
    ensures var e := Linkage(base + Part(StateFor(nodes, base), cs, byOp, i + 1), cs.ops[i].node);
            e.Some? && e.value.removed && e.value.task != ""
  {
    hide OpLines, Linkage, DistinctEids, NoDangling, FoldOf, EidSet;
    var st, op := StateFor(nodes, base), cs.ops[i];
    AfterRun(nodes, base, cs, byOp, batch, op.node);
    AfterRunEids(nodes, base, cs, byOp, batch);
    BatchParts(st, cs, byOp, i, |cs.ops|);
    BatchParts(st, cs, byOp, i + 1, |cs.ops|);
    var lines := OpPart(st, cs, byOp, i).value;
    ChainSound(nodes, base, cs, byOp, i);
    ChainStep(nodes, base, cs, byOp, i);
    CleanupTasked(WithBatch(st, Part(st, cs, byOp, i)), cs, op, byOp[op.opId], lines);
    assert lines[|lines| - 1] in Part(st, cs, byOp, i + 1);
    assert lines[|lines| - 1] in batch;
  }

  /** Why a cleanup that builds nothing builds nothing. */
  lemma CleanupSilent(st: BuilderState, cs: Changeset, op: Op, rc: OpReceipt)
    requires op.kind == Create && op.nodeKind == KIND_CLEANUP && rc.status == StatusOk
    requires OpLines(st, cs, op, rc) == Ok([])
    ensures var e := EntryByKey(st.fold.entries, op.node);
            e.Some? && if e.value.removed then e.value.task != "" else OpEid(cs, op) in st.eids
  {
  }

  lemma CleanupTasked(st: BuilderState, cs: Changeset, op: Op, rc: OpReceipt, lines: seq<Event>)
    requires op.kind == Create && op.nodeKind == KIND_CLEANUP && rc.status == StatusOk
    requires OpLines(st, cs, op, rc) == Ok(lines) && lines != []
    ensures lines[|lines| - 1].Receipt? && lines[|lines| - 1].task == rc.task
  {
  }

  lemma EmptyEids()
    ensures EidSet([]) == {}
  {
  }

  /** On the second run operation i builds nothing. */
  lemma SecondOp(nodes: SpecNodes, base: seq<Event>, cs: Changeset, byOp: map<string, OpReceipt>, batch: seq<Event>, i: nat)
    requires Covers(byOp, cs) && Ran(nodes, base, cs, byOp, batch) && CleanupsAlone(base, cs, byOp) && AllTasked(batch)
    requires i < |cs.ops|
    ensures OpLines(WithBatch(StateFor(nodes, base + batch), []), cs, cs.ops[i], byOp[cs.ops[i].opId]) == Ok([])
  {
    hide OpLines, Linkage, FoldOf, EidSet, Ran, KeyOf, CleanupsAlone, FoldAnswers, AllTasked, Sound, BatchUpTo;
    var st, n := StateFor(nodes, base), |cs.ops|;
    AfterRun(nodes, base, cs, byOp, batch, "");
    AfterRunEids(nodes, base, cs, byOp, batch);
    BatchParts(st, cs, byOp, i, n);
    BatchParts(st, cs, byOp, i + 1, n);
    SubsetEids(Part(st, cs, byOp, i + 1), batch);
    EidSetConcat(Part(st, cs, byOp, i), OpPart(st, cs, byOp, i).value);
    if byOp[cs.ops[i].opId].status == StatusOk {
      RunAnswers(nodes, base, cs, byOp, batch, i);
    }
    EmptyEids();
    OpRepeats(WithBatch(st, Part(st, cs, byOp, i)), WithBatch(StateFor(nodes, base + batch), []), base + batch,
              cs, cs.ops[i], byOp[cs.ops[i].opId]);
  }

  lemma {:induction false} SecondRunBuildsNothing(nodes: SpecNodes, base: seq<Event>, cs: Changeset, byOp: map<string, OpReceipt>, batch: seq<Event>, n: nat)
    requires Covers(byOp, cs) && Ran(nodes, base, cs, byOp, batch) && CleanupsAlone(base, cs, byOp) && AllTasked(batch)
    requires n <= |cs.ops|
    ensures BatchUpTo(StateFor(nodes, base + batch), cs, byOp, n) == Ok([])
  {
    hide OpLines, Linkage, DistinctEids, NoDangling, FoldOf;
    if n > 0 {
      SecondRunBuildsNothing(nodes, base, cs, byOp, batch, n - 1);
      SecondOp(nodes, base, cs, byOp, batch, n - 1);
      var none: seq<Event> := [];
      assert none + none == none;
    }
  }

  /** Idempotence: once a run has gone through, the same changeset and receipts build an empty batch. */
  lemma RerunAppendsNothing(nodes: SpecNodes, declared: set<string>, base: seq<Event>, cs: Changeset, rcs: seq<OpReceipt>, batch: seq<Event>)
    requires Sound(base) && Reconcile(nodes, declared, base, cs, rcs) == Ok(batch)
    requires CleanupsAlone(base, cs, ReceiptIndex(rcs))
    ensures Reconcile(nodes, declared, base + batch, cs, rcs) == Ok([])
  {
    var byOp := ReceiptIndex(rcs);
    assert Ran(nodes, base, cs, byOp, batch);
    assert AllTasked(batch);
    SecondRunBuildsNothing(nodes, base, cs, byOp, batch, |cs.ops|);
    AfterRunEids(nodes, base, cs, byOp, batch);
    AbsorbedRepeats(WithBatch(StateFor(nodes, base + batch), []), cs, cs.absorbed);
  }
}
