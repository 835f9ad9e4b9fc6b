/**
 Ingesting partial receipts and then fuller ones leaves the journal lines that
 ingesting the fuller receipts at once leaves.
 */
module Convergence {
  import opened Results
  import opened PlanTypes
  import opened Journal
  import opened FoldSpec
  import opened JournalGrowth
  import opened EventBuilder
  import opened InvariantChecker
  import opened Reconciler
  import opened IngestLaws
  import opened Idempotence
  import opened RunSafety
  import opened Bags

  // ---- what the theorem is about ----

  ghost predicate DistinctOpIds(cs: Changeset) {
    forall i, j :: 0 <= i < j < |cs.ops| ==> cs.ops[i].opId != cs.ops[j].opId
  }

  /** A git head starts with a hex digit, which no absorbed entry's eid does. */
  predicate HexHead(cs: Changeset) {
    cs.gitHead != "" && IsHexDigit(cs.gitHead[0])
  }

  /** The fuller receipts repeat every ok receipt of the partial ones. */
  ghost predicate Fuller(cs: Changeset, partial: map<string, OpReceipt>, full: map<string, OpReceipt>)
    requires Covers(partial, cs) && Covers(full, cs)
  {
    forall op :: op in cs.ops ==>
      && partial[op.opId].status != StatusUnknown
      && (partial[op.opId].status == StatusOk ==> full[op.opId] == partial[op.opId])
  }

  /** Landing operations file their lines under different keys. */
  ghost predicate KeysApart(base: seq<Event>, cs: Changeset, byOp: map<string, OpReceipt>)
    requires Covers(byOp, cs)
  {
    forall i, j, k {:trigger Touches(base, cs, byOp, i, k), Touches(base, cs, byOp, j, k)} ::
      0 <= i < |cs.ops| && 0 <= j < |cs.ops| && i != j && Touches(base, cs, byOp, i, k) ==> !Touches(base, cs, byOp, j, k)
  }

  /** No task a close targets is one a create of the same changeset reports. */
  ghost predicate TasksFresh(cs: Changeset, byOp: map<string, OpReceipt>)
    requires Covers(byOp, cs)
  {
    forall c, d :: c in cs.ops && d in cs.ops && c.kind == Close && d.kind == Create && byOp[d.opId].status == StatusOk
      ==> TargetTask(c) != Some(byOp[d.opId].task)
  }

  ghost predicate Staged(base: seq<Event>, cs: Changeset, partial: map<string, OpReceipt>, full: map<string, OpReceipt>) {
    && Sound(base) && Covers(partial, cs) && Covers(full, cs)
    && DistinctOpIds(cs) && DistinctAbsorbed(cs) && HexHead(cs)
    && Fuller(cs, partial, full) && KeysApart(base, cs, full) && TasksFresh(cs, full)
  }

  // ---- lines without the batch's own eids ----

  function Alone(st: BuilderState, cs: Changeset, byOp: map<string, OpReceipt>, i: nat): Lines
    requires i < |cs.ops| && Covers(byOp, cs)
  {
    OpLines(st, cs, cs.ops[i], byOp[cs.ops[i].opId])
  }

  function Joined(st: BuilderState, cs: Changeset, byOp: map<string, OpReceipt>, n: nat): Lines
    requires n <= |cs.ops| && Covers(byOp, cs)
  {
    if n == 0 then
      Ok([])
    else
      var before := Joined(st, cs, byOp, n - 1);
      if before.Err? then
        before
      else
        var lines := Alone(st, cs, byOp, n - 1);
        if lines.Err? then lines else Ok(before.value + lines.value)
  }

  /** Both states answer everything this operation asks alike. */
  ghost predicate SameAnswers(a: BuilderState, b: BuilderState, cs: Changeset, op: Op) {
    && a.nodes == b.nodes && a.registered == b.registered
    && (OpEid(cs, op) in a.eids <==> OpEid(cs, op) in b.eids)
    && (op.kind == Create || op.kind == Retarget ==>
          EntryByKey(a.fold.entries, op.node) == EntryByKey(b.fold.entries, op.node))
    && (op.kind == Close && TargetTask(op).Some? ==>
          OpEid(cs, op) in a.eids ||
          EntryByTask(a.fold.entries, TargetTask(op).value) == EntryByTask(b.fold.entries, TargetTask(op).value))
  }

  lemma OpLinesAgree(a: BuilderState, b: BuilderState, cs: Changeset, op: Op, rc: OpReceipt)
    requires SameAnswers(a, b, cs, op)
    ensures OpLines(a, cs, op, rc) == OpLines(b, cs, op, rc)
  {
  }

  /** The eids an operation's lines carry are its own. */
  lemma OpEids(st: BuilderState, cs: Changeset, op: Op, rc: OpReceipt)
    requires OpLines(st, cs, op, rc).Ok?
    ensures EidSet(OpLines(st, cs, op, rc).value) <= {OpEid(cs, op)}
  {
  }

  lemma OpEidInjective(cs: Changeset, a: Op, b: Op)
    requires OpEid(cs, a) == OpEid(cs, b)
    ensures a.opId == b.opId
  {
    var n := |cs.gitHead + ":"|;
    assert OpEid(cs, a)[n..] == a.opId && OpEid(cs, b)[n..] == b.opId;
  }

  lemma {:induction false} JoinedEids(st: BuilderState, cs: Changeset, byOp: map<string, OpReceipt>, n: nat, t: string)
    requires n <= |cs.ops| && Covers(byOp, cs) && Joined(st, cs, byOp, n).Ok?
    requires t in EidSet(Joined(st, cs, byOp, n).value)
    ensures exists i :: 0 <= i < n && t == OpEid(cs, cs.ops[i]) && byOp[cs.ops[i].opId].status == StatusOk
  {
    hide OpLines;
    var before, lines := Joined(st, cs, byOp, n - 1).value, Alone(st, cs, byOp, n - 1).value;
    EidSetConcat(before, lines);
    if t in EidSet(before) {
      JoinedEids(st, cs, byOp, n - 1, t);
    } else {
      OpEids(st, cs, cs.ops[n - 1], byOp[cs.ops[n - 1].opId]);
      assert byOp[cs.ops[n - 1].opId].status == StatusOk by {
        if byOp[cs.ops[n - 1].opId].status != StatusOk {
          NothingUnlessOk(st, cs, cs.ops[n - 1], byOp[cs.ops[n - 1].opId]);
          EmptyEids();
        }
      }
    }
  }

  /** With distinct op ids the batch's own eids never get in an operation's way. */
  lemma {:induction false} Unthread(st: BuilderState, cs: Changeset, byOp: map<string, OpReceipt>, n: nat)
    requires n <= |cs.ops| && Covers(byOp, cs) && DistinctOpIds(cs)
    ensures BatchUpTo(st, cs, byOp, n) == Joined(st, cs, byOp, n)
  {
    hide OpLines, EidSet;
    if n > 0 {
      Unthread(st, cs, byOp, n - 1);
      var before := Joined(st, cs, byOp, n - 1);
      if before.Ok? {
        var op := cs.ops[n - 1];
        if OpEid(cs, op) in EidSet(before.value) {
          JoinedEids(st, cs, byOp, n - 1, OpEid(cs, op));
          var i :| 0 <= i < n - 1 && OpEid(cs, op) == OpEid(cs, cs.ops[i]);
          OpEidInjective(cs, op, cs.ops[i]);
        }
        OpLinesAgree(WithBatch(st, before.value), st, cs, op, byOp[op.opId]);
      }
    }
  }

  lemma AbsorbedNotOp(cs: Changeset, entry: AbsorbedEntry, op: Op)
    requires HexHead(cs)
    ensures AbsorbedEid(entry) != OpEid(cs, op)
  {
    assert OpEid(cs, op)[0] == cs.gitHead[0];
    assert AbsorbedEid(entry)[0] == 'r';
  }

  lemma {:induction false} AbsorbedAgree(a: BuilderState, b: BuilderState, cs: Changeset, entries: seq<AbsorbedEntry>)
    requires a.nodes == b.nodes && forall x :: x in entries ==> (AbsorbedEid(x) in a.eids <==> AbsorbedEid(x) in b.eids)
    ensures AbsorbedEvents(a, cs, entries) == AbsorbedEvents(b, cs, entries)
  {
    if entries != [] {
      var init := entries[..|entries| - 1];
      assert entries == init + [entries[|entries| - 1]];
      AbsorbedAgree(a, b, cs, init);
    }
  }

  /** The whole batch, operations and absorbed entries each built against the journal alone. */
  lemma FullUnthread(st: BuilderState, cs: Changeset, byOp: map<string, OpReceipt>)
    requires Covers(byOp, cs) && DistinctOpIds(cs) && HexHead(cs)
    ensures BatchUpTo(st, cs, byOp, |cs.ops|) == Joined(st, cs, byOp, |cs.ops|)
    ensures var ops := Joined(st, cs, byOp, |cs.ops|);
            ops.Ok? ==> AbsorbedLines(WithBatch(st, ops.value), cs) == AbsorbedLines(st, cs)
  {
    hide OpLines, EidSet;
    Unthread(st, cs, byOp, |cs.ops|);
    var ops := Joined(st, cs, byOp, |cs.ops|);
    if ops.Ok? {
      forall x | x in cs.absorbed
        ensures AbsorbedEid(x) !in EidSet(ops.value)
      {
        if AbsorbedEid(x) in EidSet(ops.value) {
          JoinedEids(st, cs, byOp, |cs.ops|, AbsorbedEid(x));
          var i :| 0 <= i < |cs.ops| && AbsorbedEid(x) == OpEid(cs, cs.ops[i]);
          AbsorbedNotOp(cs, x, cs.ops[i]);
        }
      }
      AbsorbedAgree(WithBatch(st, ops.value), st, cs, cs.absorbed);
    }
  }

  // ---- the first, partial run ----

  lemma PartialOp(st: BuilderState, cs: Changeset, partial: map<string, OpReceipt>, full: map<string, OpReceipt>, i: nat)
    requires i < |cs.ops| && Covers(partial, cs) && Covers(full, cs) && Fuller(cs, partial, full)
    requires Alone(st, cs, full, i).Ok?
    ensures Alone(st, cs, partial, i) ==
            if partial[cs.ops[i].opId].status == StatusOk then Alone(st, cs, full, i) else Ok([])
  {
    assert cs.ops[i] in cs.ops;
  }

  lemma {:induction false} JoinedOk(st: BuilderState, cs: Changeset, byOp: map<string, OpReceipt>, i: nat, n: nat)
    requires i < n <= |cs.ops| && Covers(byOp, cs) && Joined(st, cs, byOp, n).Ok?
    ensures Alone(st, cs, byOp, i).Ok?
    decreases n
  {
    hide OpLines;
    if i < n - 1 {
      JoinedOk(st, cs, byOp, i, n - 1);
    }
  }

  /** The partial run builds a part of what the full run builds. */
  lemma {:induction false} PartialBuilds(st: BuilderState, cs: Changeset, partial: map<string, OpReceipt>, full: map<string, OpReceipt>, n: nat)
    requires n <= |cs.ops| && Covers(partial, cs) && Covers(full, cs) && Fuller(cs, partial, full)
    requires Joined(st, cs, full, n).Ok?
    ensures Joined(st, cs, partial, n).Ok?
    ensures forall e :: e in Joined(st, cs, partial, n).value ==> e in Joined(st, cs, full, n).value
  {
    hide OpLines;
    if n > 0 {
      PartialBuilds(st, cs, partial, full, n - 1);
      PartialOp(st, cs, partial, full, n - 1);
    }
  }

  lemma {:induction false} AbsorbedEidsOnly(st: BuilderState, cs: Changeset, t: string)
    requires DistinctAbsorbed(cs) && AbsorbedLines(st, cs).Ok? && t in EidSet(AbsorbedLines(st, cs).value)
    ensures exists x :: x in cs.absorbed && t == AbsorbedEid(x)
  {
    assert cs.absorbed[..|cs.absorbed|] == cs.absorbed;
    AbsorbedDistinct(st, cs, |cs.absorbed|);
    var lines := AbsorbedLines(st, cs).value;
    var e :| e in lines && EidOf(e) == t && t != "";
    var i :| 0 <= i < |cs.absorbed| && e.eid == AbsorbedEid(cs.absorbed[i]);
    assert cs.absorbed[i] in cs.absorbed;
  }

  /** An operation that did not land in the first run finds its eid as new as before. */
  lemma EidStaysNew(st: BuilderState, cs: Changeset, byOp: map<string, OpReceipt>, i: nat, absorbed: seq<Event>)
    requires i < |cs.ops| && Covers(byOp, cs) && DistinctOpIds(cs) && DistinctAbsorbed(cs) && HexHead(cs)
    requires Joined(st, cs, byOp, |cs.ops|).Ok? && AbsorbedLines(st, cs) == Ok(absorbed)
    requires byOp[cs.ops[i].opId].status != StatusOk
    ensures OpEid(cs, cs.ops[i]) !in EidSet(Joined(st, cs, byOp, |cs.ops|).value + absorbed)
  {
    hide OpLines;
    var t, ops := OpEid(cs, cs.ops[i]), Joined(st, cs, byOp, |cs.ops|).value;
    EidSetConcat(ops, absorbed);
    if t in EidSet(ops) {
      JoinedEids(st, cs, byOp, |cs.ops|, t);
      var j :| 0 <= j < |cs.ops| && t == OpEid(cs, cs.ops[j]) && byOp[cs.ops[j].opId].status == StatusOk;
      OpEidInjective(cs, cs.ops[i], cs.ops[j]);
    }
    if t in EidSet(absorbed) {
      AbsorbedEidsOnly(st, cs, t);
      var x :| x in cs.absorbed && t == AbsorbedEid(x);
      AbsorbedNotOp(cs, x, cs.ops[i]);
    }
  }

  lemma {:induction false} RegisteredByAppend(a: seq<Event>, b: seq<Event>)
    requires forall e :: e in b ==> !e.Registered?
    ensures RegisteredBy(a + b) == RegisteredBy(a)
  {
    if b == [] {
      assert a + b == a;
    } else {
      assert (a + b)[..|a + b| - 1] == a + b[..|b| - 1];
      RegisteredByAppend(a, b[..|b| - 1]);
    }
  }

  lemma RunRegistersNothing(nodes: SpecNodes, base: seq<Event>, cs: Changeset, byOp: map<string, OpReceipt>, batch: seq<Event>)
    requires Covers(byOp, cs) && Ran(nodes, base, cs, byOp, batch)
    ensures RegisteredBy(base + batch) == RegisteredBy(base)
  {
    hide OpLines, FullBatch, EidSet, Sound, FoldOf;
    var absorbed := RunSplits(nodes, base, cs, byOp, batch);
    var st, ops := StateFor(nodes, base), Part(StateFor(nodes, base), cs, byOp, |cs.ops|);
    OpsHaveNoRefresh(nodes, base, cs, byOp, |cs.ops|);
    AbsorbedForm(WithBatch(st, ops), cs, cs.absorbed);
    RegisteredByAppend(base, batch);
  }

  // ---- lookups by task ----

  /** The entry found by task is the one that stands first. */
  lemma {:induction false} FirstByTask(entries: seq<FoldEntry>, task: string)
    requires ByLine(entries)
    ensures forall e :: e in entries && e.task == task ==>
              EntryByTask(entries, task).Some? && EntryByTask(entries, task).value.line <= e.line
  {
    if entries != [] && entries[0].task != task {
      FirstByTask(entries[1..], task);
    }
  }

  ghost predicate CreatedBy(cs: Changeset, byOp: map<string, OpReceipt>, task: string)
    requires Covers(byOp, cs)
  {
    exists d :: d in cs.ops && d.kind == Create && byOp[d.opId].status == StatusOk && byOp[d.opId].task == task
  }

  ghost predicate StayedOrMoved(base: seq<Event>, after: seq<Event>, cs: Changeset, byOp: map<string, OpReceipt>, k: string)
    requires Covers(byOp, cs)
  {
    var e := Linkage(after, k);
    e == Linkage(base, k) || (e.Some? && (e.value.task == "" || e.value.line >= |base| || CreatedBy(cs, byOp, e.value.task)))
  }

  lemma {:induction false} EntriesAfter(nodes: SpecNodes, base: seq<Event>, cs: Changeset, byOp: map<string, OpReceipt>, n: nat, k: string)
    requires Sound(base) && n <= |cs.ops| && Covers(byOp, cs) && BatchUpTo(StateFor(nodes, base), cs, byOp, n).Ok?
    ensures StayedOrMoved(base, base + Part(StateFor(nodes, base), cs, byOp, n), cs, byOp, k)
  {
    hide OpLines, Linkage, Sound, FoldOf, EidSet, KeyOf, OtherKeysStay;
    var st := StateFor(nodes, base);
    if n == 0 {
      assert base + Part(st, cs, byOp, 0) == base;
    } else {
      BatchParts(st, cs, byOp, n - 1, n);
      EntriesAfter(nodes, base, cs, byOp, n - 1, k);
      ChainSound(nodes, base, cs, byOp, n - 1);
      ChainStep(nodes, base, cs, byOp, n - 1);
      assert cs.ops[n - 1] in cs.ops;
      if byOp[cs.ops[n - 1].opId].status != StatusOk {
        NothingUnlessOk(WithBatch(st, Part(st, cs, byOp, n - 1)), cs, cs.ops[n - 1], byOp[cs.ops[n - 1].opId]);
        assert Part(st, cs, byOp, n) == Part(st, cs, byOp, n - 1);
      }
    }
  }

  /** A close finds the entry of its target where it was, if no operation moved that entry's key. */
  lemma TaskLookupStays(base: seq<Event>, after: seq<Event>, cs: Changeset, byOp: map<string, OpReceipt>, task: string)
    requires Covers(byOp, cs) && task != "" && !CreatedBy(cs, byOp, task)
    requires forall k :: StayedOrMoved(base, after, cs, byOp, k)
    requires var e := EntryByTask(FoldOf(base).entries, task); e.Some? && Linkage(after, e.value.key) == Linkage(base, e.value.key)
    ensures EntryByTask(FoldOf(after).entries, task) == EntryByTask(FoldOf(base).entries, task)
  {
    hide FoldOf, Linkage, CreatedBy;
    FoldListsLinkage(base);
    FoldListsLinkage(after);
    FirstByTask(FoldOf(base).entries, task);
    FirstByTask(FoldOf(after).entries, task);
    var e := EntryByTask(FoldOf(base).entries, task).value;
    assert e in FoldOf(after).entries;
    var f := EntryByTask(FoldOf(after).entries, task).value;
    LinkageSourced(base, e.key);
    assert StayedOrMoved(base, after, cs, byOp, f.key);
    assert f in FoldOf(base).entries;
    SameLine(FoldOf(base).entries, e, f);
  }

  lemma SameLine(entries: seq<FoldEntry>, e: FoldEntry, f: FoldEntry)
    requires ByLine(entries) && e in entries && f in entries && e.line == f.line
    ensures e == f
  {
  }

  // ---- the second, fuller run ----

  /** A completed first run: its batch, built from the partial receipts. */
  ghost predicate FirstRan(nodes: SpecNodes, base: seq<Event>, cs: Changeset, partial: map<string, OpReceipt>,
                           full: map<string, OpReceipt>, first: seq<Event>)
  {
    && Staged(base, cs, partial, full)
    && Ran(nodes, base, cs, partial, first) && AllTasked(first)
    && Joined(StateFor(nodes, base), cs, full, |cs.ops|).Ok?
  }

  /** A key that only an operation still outstanding files under was not moved by the first run. */
  lemma OutstandingKey(nodes: SpecNodes, base: seq<Event>, cs: Changeset, partial: map<string, OpReceipt>,
                       full: map<string, OpReceipt>, first: seq<Event>, i: nat, k: string)
    requires FirstRan(nodes, base, cs, partial, full, first) && i < |cs.ops| && Touches(base, cs, full, i, k)
    requires partial[cs.ops[i].opId].status != StatusOk
    ensures Linkage(base + first, k) == Linkage(base, k)
  {
    hide OpLines, Linkage, FoldOf, EidSet, KeyOf, Sound, FullBatch;
    AfterRun(nodes, base, cs, partial, first, k);
    forall j | 0 <= j < |cs.ops|
      ensures !Touches(base, cs, partial, j, k)
    {
      assert cs.ops[j] in cs.ops;
      assert Touches(base, cs, partial, j, k) ==> Touches(base, cs, full, j, k);
    }
    Untouched(nodes, base, cs, partial, 0, |cs.ops|, k);
    assert base + Part(StateFor(nodes, base), cs, partial, 0) == base;
  }

  lemma FirstStayedOrMoved(nodes: SpecNodes, base: seq<Event>, cs: Changeset, partial: map<string, OpReceipt>,
                           full: map<string, OpReceipt>, first: seq<Event>, k: string)
    requires FirstRan(nodes, base, cs, partial, full, first)
    ensures StayedOrMoved(base, base + first, cs, full, k)
  {
    hide OpLines, Linkage, FoldOf, EidSet, KeyOf, Sound, FullBatch;
    AfterRun(nodes, base, cs, partial, first, k);
    EntriesAfter(nodes, base, cs, partial, |cs.ops|, k);
  }

  /** A close still outstanding finds its entry as the journal before the first run had it. */
  lemma OutstandingClose(nodes: SpecNodes, base: seq<Event>, cs: Changeset, partial: map<string, OpReceipt>,
                         full: map<string, OpReceipt>, first: seq<Event>, i: nat)
    requires FirstRan(nodes, base, cs, partial, full, first) && i < |cs.ops|
    requires partial[cs.ops[i].opId].status != StatusOk && full[cs.ops[i].opId].status == StatusOk
    requires cs.ops[i].kind == Close && TargetTask(cs.ops[i]).Some? && KeyOf(base, cs.ops[i]).Some?
    ensures EntryByTask(FoldOf(base + first).entries, TargetTask(cs.ops[i]).value) ==
            EntryByTask(FoldOf(base).entries, TargetTask(cs.ops[i]).value)
  {
    hide OpLines, Linkage, FoldOf, EidSet, Sound, FullBatch;
    var op, t := cs.ops[i], TargetTask(cs.ops[i]).value;
    var k := KeyOf(base, op).value;
    assert op in cs.ops;
    OutstandingKey(nodes, base, cs, partial, full, first, i, k);
    forall k
      ensures StayedOrMoved(base, base + first, cs, full, k)
    {
      FirstStayedOrMoved(nodes, base, cs, partial, full, first, k);
    }
    TaskLookupStays(base, base + first, cs, full, t);
  }

  /** A close with an ok receipt that builds its lines is filed under a key, or its eid is already there. */
  lemma CloseFindsKey(st: BuilderState, base: seq<Event>, cs: Changeset, op: Op, rc: OpReceipt)
    requires st.fold == FoldOf(base) && op.kind == Close && rc.status == StatusOk && OpLines(st, cs, op, rc).Ok?
    requires REASON_REMOVED <= op.reason || REASON_MODIFIED <= op.reason
    ensures OpEid(cs, op) in st.eids || KeyOf(base, op).Some?
  {
  }

  lemma UnreasonedClose(st: BuilderState, cs: Changeset, op: Op, rc: OpReceipt)
    requires op.kind == Close && rc.status == StatusOk
    requires !(REASON_REMOVED <= op.reason || REASON_MODIFIED <= op.reason)
    ensures OpLines(st, cs, op, rc) == Ok([])
  {
  }

  /** For an operation still outstanding the second run's state answers as the first journal did. */
  lemma OutstandingOp(nodes: SpecNodes, base: seq<Event>, cs: Changeset, partial: map<string, OpReceipt>,
                      full: map<string, OpReceipt>, first: seq<Event>, i: nat)
    requires FirstRan(nodes, base, cs, partial, full, first) && i < |cs.ops|
    requires partial[cs.ops[i].opId].status != StatusOk
    ensures Alone(StateFor(nodes, base + first), cs, full, i) == Alone(StateFor(nodes, base), cs, full, i)
  {
    hide OpLines, Linkage, FoldOf, EidSet, Sound, FullBatch, KeyOf;
    var st, later, op := StateFor(nodes, base), StateFor(nodes, base + first), cs.ops[i];
    var rc := full[op.opId];
    JoinedOk(st, cs, full, i, |cs.ops|);
    if rc.status != StatusOk {
      OtherStatus(st, later, cs, op, rc);
    } else if op.kind == Close && !(REASON_REMOVED <= op.reason || REASON_MODIFIED <= op.reason) {
      UnreasonedClose(st, cs, op, rc);
      UnreasonedClose(later, cs, op, rc);
    } else {
      OutstandingEid(nodes, base, cs, partial, full, first, i);
      RunRegistersNothing(nodes, base, cs, partial, first);
      if op.kind == Create || op.kind == Retarget {
        NodeTouches(base, cs, full, i);
        OutstandingKey(nodes, base, cs, partial, full, first, i, op.node);
        KeyLookup(base, op.node);
        KeyLookup(base + first, op.node);
      } else if op.kind == Close && TargetTask(op).Some? {
        CloseFindsKey(st, base, cs, op, rc);
        if OpEid(cs, op) !in st.eids {
          OutstandingClose(nodes, base, cs, partial, full, first, i);
        }
      }
      OpLinesAgree(st, later, cs, op, rc);
    }
  }

  lemma NodeTouches(base: seq<Event>, cs: Changeset, byOp: map<string, OpReceipt>, i: nat)
    requires Covers(byOp, cs) && i < |cs.ops| && byOp[cs.ops[i].opId].status == StatusOk
    requires cs.ops[i].kind == Create || cs.ops[i].kind == Retarget
    ensures Touches(base, cs, byOp, i, cs.ops[i].node)
  {
  }

  lemma OtherStatus(a: BuilderState, b: BuilderState, cs: Changeset, op: Op, rc: OpReceipt)
    requires rc.status != StatusOk
    ensures OpLines(a, cs, op, rc) == OpLines(b, cs, op, rc)
  {
  }

  lemma OutstandingEid(nodes: SpecNodes, base: seq<Event>, cs: Changeset, partial: map<string, OpReceipt>,
                       full: map<string, OpReceipt>, first: seq<Event>, i: nat)
    requires FirstRan(nodes, base, cs, partial, full, first) && i < |cs.ops|
    requires partial[cs.ops[i].opId].status != StatusOk
    ensures OpEid(cs, cs.ops[i]) in StateFor(nodes, base).eids <==> OpEid(cs, cs.ops[i]) in StateFor(nodes, base + first).eids
  {
    hide OpLines, Linkage, FoldOf, EidSet, Sound, KeyOf;
    var st := StateFor(nodes, base);
    FullUnthread(st, cs, partial);
    var ops := Joined(st, cs, partial, |cs.ops|).value;
    var absorbed := AbsorbedLines(st, cs).value;
    assert first == ops + absorbed;
    EidStaysNew(st, cs, partial, i, absorbed);
    EidSetConcat(base, first);
  }

  /** Operations that landed in the first run build nothing in the second. */
  lemma LandedOp(nodes: SpecNodes, base: seq<Event>, cs: Changeset, partial: map<string, OpReceipt>,
                 full: map<string, OpReceipt>, first: seq<Event>, i: nat)
    requires FirstRan(nodes, base, cs, partial, full, first) && i < |cs.ops|
    requires partial[cs.ops[i].opId].status == StatusOk
    ensures Alone(StateFor(nodes, base + first), cs, full, i) == Ok([])
  {
    hide OpLines, Linkage, FoldOf, Sound, FullBatch, KeyOf;
    assert cs.ops[i] in cs.ops;
    forall c, j | 0 <= c < |cs.ops| && 0 <= j < |cs.ops| && j != c && Touches(base, cs, partial, c, cs.ops[c].node)
      ensures !Touches(base, cs, partial, j, cs.ops[c].node)
    {
      assert cs.ops[c] in cs.ops && cs.ops[j] in cs.ops;
      assert Touches(base, cs, full, c, cs.ops[c].node);
      assert !Touches(base, cs, full, j, cs.ops[c].node);
    }
    SecondOp(nodes, base, cs, partial, first, i);
    EmptyEids();
    assert WithBatch(StateFor(nodes, base + first), []) == StateFor(nodes, base + first);
  }

  /** Each operation's lines are built by exactly one of the two runs. */
  lemma StageStep(nodes: SpecNodes, base: seq<Event>, cs: Changeset, partial: map<string, OpReceipt>,
                  full: map<string, OpReceipt>, first: seq<Event>, i: nat)
    requires FirstRan(nodes, base, cs, partial, full, first) && i < |cs.ops|
    ensures var x := Alone(StateFor(nodes, base), cs, full, i);
            var a, b := Alone(StateFor(nodes, base), cs, partial, i), Alone(StateFor(nodes, base + first), cs, full, i);
            x.Ok? && ((a == x && b == Ok([])) || (a == Ok([]) && b == x))
  {
    hide OpLines, Linkage, FoldOf, Sound, FullBatch, KeyOf, EidSet;
    JoinedOk(StateFor(nodes, base), cs, full, i, |cs.ops|);
    PartialOp(StateFor(nodes, base), cs, partial, full, i);
    if partial[cs.ops[i].opId].status == StatusOk {
      LandedOp(nodes, base, cs, partial, full, first, i);
    } else {
      OutstandingOp(nodes, base, cs, partial, full, first, i);
    }
  }

  /** Between them the two runs build what one full run builds. */
  lemma {:induction false} StagesJoin(nodes: SpecNodes, base: seq<Event>, cs: Changeset, partial: map<string, OpReceipt>,
                                      full: map<string, OpReceipt>, first: seq<Event>, n: nat)
    requires FirstRan(nodes, base, cs, partial, full, first) && n <= |cs.ops|
    ensures var a := Joined(StateFor(nodes, base), cs, partial, n);
            var b := Joined(StateFor(nodes, base + first), cs, full, n);
            var c := Joined(StateFor(nodes, base), cs, full, n);
            a.Ok? && b.Ok? && c.Ok? && multiset(a.value) + multiset(b.value) == multiset(c.value)
  {
    hide Alone, StateFor, Ran;
    if n > 0 {
      StagesJoin(nodes, base, cs, partial, full, first, n - 1);
      StageStep(nodes, base, cs, partial, full, first, n - 1);
    }
  }

  lemma {:induction false} PairingsPermute(a: seq<Event>, b: seq<Event>, kind: ReceiptKind, referent: Referent)
    requires multiset(a) == multiset(b)
    ensures Pairings(a, kind, referent) == Pairings(b, kind, referent)
  {
    if a == [] {
      assert |b| == |multiset(b)| == 0;
    } else {
      var last := a[|a| - 1];
      var front, back := RemoveLast(a, b);
      PairingsPermute(a[..|a| - 1], front + back, kind, referent);
      PairingsConcat(front, back, kind, referent);
      PairingsConcat(front + [last], back, kind, referent);
      PairingsConcat(front, [last], kind, referent);
      assert [last][..0] == [];
      assert Pairings([last], kind, referent) == if last.Receipt? && last.receipt == kind && last.referent == referent then 1 else 0;
    }
  }

  /** Lines that are part of a singly paired journal are singly paired. */
  lemma PartSinglyPaired(part: seq<Event>, rest: seq<Event>, whole: seq<Event>)
    requires SinglyPaired(whole) && multiset(part + rest) == multiset(whole)
    ensures SinglyPaired(part) && SinglyPaired(part + rest)
  {
    forall kind, referent {:trigger Pairings(part, kind, referent)} {:trigger Pairings(part + rest, kind, referent)} | Paired(kind, referent)
      ensures Pairings(part, kind, referent) <= 1 && Pairings(part + rest, kind, referent) <= 1
    {
      PairingsPermute(part + rest, whole, kind, referent);
      PairingsConcat(part, rest, kind, referent);
    }
  }

  /** The gates that let the full batch through let a part of it through. */
  lemma PartPasses(declared: set<string>, base: seq<Event>, before: seq<Event>, part: seq<Event>, rest: seq<Event>, whole: seq<Event>)
    requires Gate(declared, base, whole) == Ok(whole) && multiset(before + part + rest) == multiset(whole)
    requires Answered(base + before, part)
    ensures Gate(declared, base + before, part) == Ok(part)
  {
    hide Pairings, KnownReferents, EidSet, LineValid;
    if part != [] {
      assert |before + part + rest| == |multiset(before + part + rest)| == |multiset(whole)| == |whole|;
      assert multiset(base + before + part + rest) == multiset(base) + multiset(before + part + rest) by {
        assert base + before + part + rest == base + (before + part + rest);
      }
      PartSinglyPaired(base + before + part, rest, base + whole);
      forall e | e in part
        ensures LineValid(declared, e)
      {
        assert e in multiset(before + part + rest);
        assert e in multiset(whole);
        assert e in whole;
      }
    }
  }

  /** Convergence: if ingesting the full receipts at once succeeds, then ingesting the partial ones and then the
      full ones succeeds too, and the two batches together are that one batch, line for line. */
  lemma StagedRunsConverge(nodes: SpecNodes, declared: set<string>, base: seq<Event>, cs: Changeset,
                           rcsPartial: seq<OpReceipt>, rcsFull: seq<OpReceipt>, whole: seq<Event>)
    returns (first: seq<Event>, second: seq<Event>)
    requires PairError(cs, rcsPartial).None?
    requires Staged(base, cs, ReceiptIndex(rcsPartial), ReceiptIndex(rcsFull))
    requires Reconcile(nodes, declared, base, cs, rcsFull) == Ok(whole)
    ensures Reconcile(nodes, declared, base, cs, rcsPartial) == Ok(first)
    ensures Reconcile(nodes, declared, base + first, cs, rcsFull) == Ok(second)
    ensures multiset(first + second) == multiset(whole)
  {
    hide StateFor, FullBatch, Gate, Answered, Reconcile, AllTasked, Staged, Ran, Joined, AbsorbedLines;
    var partial, full := ReceiptIndex(rcsPartial), ReceiptIndex(rcsFull);
    ReconcilePasses(nodes, declared, base, cs, rcsFull, whole);
    StagedCovers(base, cs, partial, full);
    first := FirstStage(nodes, declared, base, cs, partial, full, whole);
    second := SecondStage(nodes, declared, base, cs, partial, full, whole, first);
    StagesPass(nodes, declared, base, cs, partial, full, whole, first, second);
    PassesReconcile(nodes, declared, base, cs, rcsPartial, first);
    PassesReconcile(nodes, declared, base + first, cs, rcsFull, second);
  }

  lemma StagedCovers(base: seq<Event>, cs: Changeset, partial: map<string, OpReceipt>, full: map<string, OpReceipt>)
    requires Staged(base, cs, partial, full)
    ensures Covers(partial, cs) && Covers(full, cs) && DistinctAbsorbed(cs)
  {
  }

  /** Both batches pass the gates. */
  lemma StagesPass(nodes: SpecNodes, declared: set<string>, base: seq<Event>, cs: Changeset, partial: map<string, OpReceipt>,
                   full: map<string, OpReceipt>, whole: seq<Event>, first: seq<Event>, second: seq<Event>)
    requires Covers(partial, cs) && Covers(full, cs)
    requires Ran(nodes, base, cs, partial, first) && Ran(nodes, base + first, cs, full, second)
    requires Gate(declared, base, whole) == Ok(whole) && multiset(first + second) == multiset(whole)
    ensures Gate(declared, base, first) == Ok(first) && Gate(declared, base + first, second) == Ok(second)
  {
    hide Ran, Gate, Answered;
    AnsweredByConstruction(nodes, base, cs, partial, first);
    AnsweredByConstruction(nodes, base + first, cs, full, second);
    assert base + [] == base;
    assert [] + first + second == first + second;
    PartPasses(declared, base, [], first, second, whole);
    assert first + second + [] == first + second;
    PartPasses(declared, base, first, second, [], whole);
  }

  lemma ReconcilePasses(nodes: SpecNodes, declared: set<string>, base: seq<Event>, cs: Changeset, rcs: seq<OpReceipt>, batch: seq<Event>)
    requires Reconcile(nodes, declared, base, cs, rcs) == Ok(batch)
    ensures PairError(cs, rcs).None? && Covers(ReceiptIndex(rcs), cs)
    ensures FullBatch(StateFor(nodes, base), cs, ReceiptIndex(rcs)) == Ok(batch)
    ensures Gate(declared, base, batch) == Ok(batch) && AllTasked(batch)
  {
    hide BatchUpTo, AbsorbedLines, SinglyPaired, Answered, StateFor;
  }

  lemma PassesReconcile(nodes: SpecNodes, declared: set<string>, base: seq<Event>, cs: Changeset, rcs: seq<OpReceipt>, batch: seq<Event>)
    requires PairError(cs, rcs).None? && Covers(ReceiptIndex(rcs), cs) && Ran(nodes, base, cs, ReceiptIndex(rcs), batch)
    requires Gate(declared, base, batch) == Ok(batch)
    ensures Reconcile(nodes, declared, base, cs, rcs) == Ok(batch)
  {
    hide FullBatch, Gate, StateFor;
  }

  lemma FirstStage(nodes: SpecNodes, declared: set<string>, base: seq<Event>, cs: Changeset, partial: map<string, OpReceipt>,
                   full: map<string, OpReceipt>, whole: seq<Event>) returns (first: seq<Event>)
    requires Staged(base, cs, partial, full) && FullBatch(StateFor(nodes, base), cs, full) == Ok(whole) && AllTasked(whole)
    ensures FirstRan(nodes, base, cs, partial, full, first)
    ensures AbsorbedLines(StateFor(nodes, base), cs).Ok? && Joined(StateFor(nodes, base), cs, partial, |cs.ops|).Ok?
    ensures first == Joined(StateFor(nodes, base), cs, partial, |cs.ops|).value + AbsorbedLines(StateFor(nodes, base), cs).value
    ensures whole == Joined(StateFor(nodes, base), cs, full, |cs.ops|).value + AbsorbedLines(StateFor(nodes, base), cs).value
  {
    hide OpLines, Linkage, FoldOf, Sound, KeyOf, EidSet;
    var st := StateFor(nodes, base);
    FullUnthread(st, cs, full);
    FullUnthread(st, cs, partial);
    PartialBuilds(st, cs, partial, full, |cs.ops|);
    first := Joined(st, cs, partial, |cs.ops|).value + AbsorbedLines(st, cs).value;
  }

  lemma SecondStage(nodes: SpecNodes, declared: set<string>, base: seq<Event>, cs: Changeset, partial: map<string, OpReceipt>,
                    full: map<string, OpReceipt>, whole: seq<Event>, first: seq<Event>) returns (second: seq<Event>)
    requires FirstRan(nodes, base, cs, partial, full, first) && AbsorbedLines(StateFor(nodes, base), cs).Ok?
    requires Joined(StateFor(nodes, base), cs, partial, |cs.ops|).Ok?
    requires first == Joined(StateFor(nodes, base), cs, partial, |cs.ops|).value + AbsorbedLines(StateFor(nodes, base), cs).value
    requires whole == Joined(StateFor(nodes, base), cs, full, |cs.ops|).value + AbsorbedLines(StateFor(nodes, base), cs).value
    ensures FullBatch(StateFor(nodes, base + first), cs, full) == Ok(second)
    ensures multiset(first + second) == multiset(whole)
    ensures Sound(base + first) && Ran(nodes, base + first, cs, full, second)
  {
    hide OpLines, Linkage, FoldOf, Sound, KeyOf, EidSet;
    var later := StateFor(nodes, base + first);
    StagesJoin(nodes, base, cs, partial, full, first, |cs.ops|);
    FullUnthread(later, cs, full);
    AfterRunEids(nodes, base, cs, partial, first);
    AbsorbedRepeats(later, cs, cs.absorbed);
    second := Joined(later, cs, full, |cs.ops|).value;
    assert second + [] == second;
    RunSound(nodes, base, cs, partial, first);
  }
}
