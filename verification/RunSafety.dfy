/**
 What an ingest run keeps: distinct eids and answered receipts, whatever the
 operations were.
 */
module RunSafety {
  import opened Results
  import opened PlanTypes
  import opened Journal
  import opened FoldSpec
  import opened JournalGrowth
  import opened EventBuilder
  import opened InvariantChecker
  import opened Reconciler
  import opened IngestLaws
  import opened Idempotence

  /** No two absorbed entries record the same transition of the same node. */
  ghost predicate DistinctAbsorbed(cs: Changeset) {
    forall i, j :: 0 <= i < j < |cs.absorbed| ==> AbsorbedEid(cs.absorbed[i]) != AbsorbedEid(cs.absorbed[j])
  }

  ghost predicate FromEntries(cs: Changeset, lines: seq<Event>, n: nat)
    requires n <= |cs.absorbed|
  {
    forall e :: e in lines ==> e.Change? && exists i :: 0 <= i < n && e.eid == AbsorbedEid(cs.absorbed[i])
  }

  lemma FromEntriesNext(cs: Changeset, lines: seq<Event>, n: nat)
    requires n < |cs.absorbed| && FromEntries(cs, lines, n)
    ensures FromEntries(cs, lines, n + 1)
  {
    hide AbsorbedEid;
  }

  /** One more entry's event has an eid of its own. */
  lemma EntryAppends(cs: Changeset, lines: seq<Event>, n: nat, e: Event)
    requires DistinctAbsorbed(cs) && n < |cs.absorbed| && FromEntries(cs, lines, n) && DistinctEids(lines)
    requires e.Change? && e.eid == AbsorbedEid(cs.absorbed[n]) && e.eid != ""
    ensures DistinctEids(lines + [e]) && FromEntries(cs, lines + [e], n + 1)
  {
    hide AbsorbedEid;
    forall f | f in lines
      ensures f.Change? && f.eid != e.eid
    {
      var i :| 0 <= i < n && f.eid == AbsorbedEid(cs.absorbed[i]);
    }
  }

  lemma {:induction false} AbsorbedDistinct(st: BuilderState, cs: Changeset, n: nat)
    requires DistinctAbsorbed(cs) && n <= |cs.absorbed| && AbsorbedEvents(st, cs, cs.absorbed[..n]).Ok?
    ensures DistinctEids(AbsorbedEvents(st, cs, cs.absorbed[..n]).value)
    ensures FromEntries(cs, AbsorbedEvents(st, cs, cs.absorbed[..n]).value, n)
  {
    if n > 0 {
      assert cs.absorbed[..n][..n - 1] == cs.absorbed[..n - 1];
      AbsorbedDistinct(st, cs, n - 1);
      var init, entry := AbsorbedEvents(st, cs, cs.absorbed[..n - 1]).value, cs.absorbed[n - 1];
      AbsorbedNext(st, cs, n - 1, init);
      hide AbsorbedEvents, DistinctEids, FromEntries;
      if AbsorbedEid(entry) in st.eids {
        FromEntriesNext(cs, init, n - 1);
      } else {
        EntryAppends(cs, init, n - 1, AbsorbedEvent(cs, st.nodes[entry.node], entry));
      }
    }
  }

  lemma AbsorbedFresh(st: BuilderState, cs: Changeset)
    requires DistinctAbsorbed(cs) && AbsorbedLines(st, cs).Ok?
    ensures DistinctEids(AbsorbedLines(st, cs).value)
    ensures forall e :: e in AbsorbedLines(st, cs).value ==> !e.Receipt?
  {
    assert cs.absorbed[..|cs.absorbed|] == cs.absorbed;
    AbsorbedDistinct(st, cs, |cs.absorbed|);
  }

  /** A run leaves eids distinct and every receipt answered, given distinct absorbed entries. */
  lemma RunSound(nodes: SpecNodes, base: seq<Event>, cs: Changeset, byOp: map<string, OpReceipt>, batch: seq<Event>)
    requires Covers(byOp, cs) && Ran(nodes, base, cs, byOp, batch) && DistinctAbsorbed(cs)
    ensures Sound(base + batch)
  {
    hide OpLines, FoldOf, DistinctEids, NoDangling, EidSet, AbsorbedLines, FullBatch;
    var st, ops := StateFor(nodes, base), Part(StateFor(nodes, base), cs, byOp, |cs.ops|);
    var absorbed := RunSplits(nodes, base, cs, byOp, batch);
    AbsorbedSilent(WithBatch(st, ops), cs);
    AbsorbedFresh(WithBatch(st, ops), cs);
    EidSetConcat(base, ops);
    EidSetCarried(base + ops);
    SoundAppend(base + ops, absorbed);
    assert base + ops + absorbed == base + batch;
  }

  lemma SoundAppend(a: seq<Event>, b: seq<Event>)
    requires Sound(a) && FreshEids(a, b) && forall e :: e in b ==> !e.Receipt?
    ensures Sound(a + b)
  {
    DistinctConcat(a, b);
    forall e | e in a + b && e.Receipt? && e.referent.For?
      ensures Carried(a + b, e.referent.target)
    {
      CarriedConcat(a, b, e.referent.target);
    }
  }

  lemma {:induction false} EidsInCarried(lines: seq<Event>)
    requires forall e :: e in lines ==> EidOf(e) != ""
    ensures forall t :: t in EidsIn(lines) ==> t in EidSet(lines)
  {
    if lines != [] {
      var init, last := lines[..|lines| - 1], lines[|lines| - 1];
      assert lines == init + [last];
      EidsInCarried(init);
      forall t | t in EidsIn(lines)
        ensures t in EidSet(lines)
      {
        if t in EidsIn(init) {
          EidSetConcat(init, [last]);
        } else {
          assert last in lines;
        }
      }
    }
  }

  /** Receipts of a sound journal name eids it carries. */
  lemma SoundAnswers(s: seq<Event>, e: Event)
    requires Sound(s) && e in s && e.Receipt?
    ensures KnownReferents(EidSet(s), e)
  {
    EidSetCarried(s);
  }

  /** Invariant 2 can never refuse what the builder builds: its receipts are answered by construction. */
  lemma AnsweredByConstruction(nodes: SpecNodes, base: seq<Event>, cs: Changeset, byOp: map<string, OpReceipt>, batch: seq<Event>)
    requires Covers(byOp, cs) && Ran(nodes, base, cs, byOp, batch)
    ensures Answered(base, batch)
  {
    hide OpLines, FoldOf, FullBatch, DistinctEids, NoDangling;
    var st, ops := StateFor(nodes, base), Part(StateFor(nodes, base), cs, byOp, |cs.ops|);
    var absorbed := RunSplits(nodes, base, cs, byOp, batch);
    EidSetConcat(base, ops);
    EidSetConcat(base + ops, absorbed);
    assert base + ops + absorbed == base + batch;
    forall e | e in batch
      ensures KnownReferents(EidSet(base + batch), e)
    {
      if e in ops {
        OpsHaveNoRefresh(nodes, base, cs, byOp, |cs.ops|);
        if e.Receipt? {
          SoundAnswers(base + ops, e);
        }
      } else {
        AbsorbedAnswered(WithBatch(st, ops), cs, e);
      }
    }
  }

  lemma AbsorbedAnswered(st: BuilderState, cs: Changeset, e: Event)
    requires AbsorbedLines(st, cs).Ok? && e in AbsorbedLines(st, cs).value
    ensures KnownReferents(EidSet(AbsorbedLines(st, cs).value), e)
  {
    AbsorbedForm(st, cs, cs.absorbed);
    var events, lines := AbsorbedEvents(st, cs, cs.absorbed).value, AbsorbedLines(st, cs).value;
    EidsInCarried(events);
    EidSetConcat(events, [Refresh(cs.gitHead, EidsIn(events))]);
  }

  lemma {:induction false} OpsHaveNoRefresh(nodes: SpecNodes, base: seq<Event>, cs: Changeset, byOp: map<string, OpReceipt>, n: nat)
    requires n <= |cs.ops| && Covers(byOp, cs) && BatchUpTo(StateFor(nodes, base), cs, byOp, n).Ok?
    ensures forall e :: e in Part(StateFor(nodes, base), cs, byOp, n) ==> e.Change? || e.Receipt?
  {
    hide OpLines, StateFor;
    if n > 0 {
      var st := StateFor(nodes, base);
      BatchParts(st, cs, byOp, n - 1, n);
      OpsHaveNoRefresh(nodes, base, cs, byOp, n - 1);
      OpHasNoRefresh(WithBatch(st, Part(st, cs, byOp, n - 1)), cs, cs.ops[n - 1], byOp[cs.ops[n - 1].opId]);
    }
  }

  lemma OpHasNoRefresh(st: BuilderState, cs: Changeset, op: Op, rc: OpReceipt)
    requires OpLines(st, cs, op, rc).Ok?
    ensures forall e :: e in OpLines(st, cs, op, rc).value ==> e.Change? || e.Receipt?
  {
  }
}
