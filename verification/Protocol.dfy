/**
 Whole runs: any sequence of registrations, ingest runs and refreshes from the
 empty journal, each of which may also fail.
 */
module Protocol {
  import opened Results
  import opened PlanTypes
  import opened Merkle
  import opened Journal
  import opened FoldSpec
  import opened JournalGrowth
  import opened EventBuilder
  import opened InvariantChecker
  import opened Reconciler
  import opened Idempotence
  import opened RunSafety
  import R = Refresh

  // ---- registration ----

  /** A commit id as the commands accept it: 7 to 40 lower-case hex digits. */
  predicate PlainHead(gitHead: string) {
    7 <= |gitHead| <= 40 && forall c :: c in gitHead ==> IsHexDigit(c)
  }

  /** A proposal is filed under a name that opens with its date. */
  predicate Dated(stem: string) {
    stem != "" && '0' <= stem[0] <= '9'
  }

  function Registration(gitHead: string, stem: string): Event {
    Registered(DeriveEid(gitHead, stem), stem, gitHead)
  }

  /** Nothing when a registered line already carries the eid. */
  function RegisterLines(journal: seq<Event>, gitHead: string, stem: string): seq<Event> {
    if exists e :: e in journal && e.Registered? && e.eid == DeriveEid(gitHead, stem) then []
    else [Registration(gitHead, stem)]
  }

  datatype RegisterResult = Filed | Rejected | AlreadyFiled | NotAppended | NotCopied

  /** The journal and the directory of filed proposals. */
  class Registry {
    const store: JournalStore
    var filed: set<string>

    constructor (store: JournalStore)
      ensures this.store == store && filed == {}
    {
      this.store, filed := store, {};
    }

    /**
     `accepted` stands for the checks on the proposal's headings, `writable` and `copied` for whether
     the two writes land; a crash between them is a copy that does not land.
     */
    method Register(gitHead: string, stem: string, accepted: bool, writable: bool, copied: bool) returns (r: RegisterResult)
      modifies this, store
      ensures r == if !accepted then Rejected
                   else if stem in old(filed) then AlreadyFiled
                   else if RegisterLines(old(store.lines), gitHead, stem) != [] && !(writable && stem != "") then NotAppended
                   else if !copied then NotCopied
                   else Filed
      ensures store.lines == old(store.lines) + if r == Filed || r == NotCopied then RegisterLines(old(store.lines), gitHead, stem) else []
      ensures filed == old(filed) + if r == Filed then {stem} else {}
    {
      if !accepted {
        return Rejected;
      }
      if stem in filed {
        return AlreadyFiled;
      }
      var already := false;
      for k := 0 to |store.lines|
        invariant store.lines == old(store.lines) && filed == old(filed)
        invariant already <==> exists e :: e in store.lines[..k] && e.Registered? && e.eid == DeriveEid(gitHead, stem)
      {
        assert store.lines[..k + 1] == store.lines[..k] + [store.lines[k]];
        if store.lines[k].Registered? && store.lines[k].eid == DeriveEid(gitHead, stem) {
          already := true;
        }
      }
      assert store.lines[..|store.lines|] == store.lines;
      if !already {
        assert Registration(gitHead, stem) in [Registration(gitHead, stem)];
        var ok := store.Append([Registration(gitHead, stem)], writable);
        if !ok {
          return NotAppended;
        }
      }
      if !copied {
        return NotCopied;
      }
      filed := filed + {stem};
      return Filed;
    }
  }

  /** One registration of the proposal under its own eid, unless a registered line carries that eid. */
  lemma RegistrationSays(journal: seq<Event>, gitHead: string, stem: string)
    ensures var lines := RegisterLines(journal, gitHead, stem);
            if exists i :: 0 <= i < |journal| && journal[i].Registered? && journal[i].eid == gitHead + ":" + stem then lines == []
            else
              && |lines| == 1 && lines[0].Registered? && lines[0].eid == gitHead + ":" + stem
              && lines[0].proposal == stem && lines[0].gitHead == gitHead
  {
    if i :| 0 <= i < |journal| && journal[i].Registered? && journal[i].eid == gitHead + ":" + stem {
      assert journal[i] in journal;
    }
  }

  /** Registering again, as after a crash between the two writes, appends nothing. */
  lemma RegisterRepairs(journal: seq<Event>, gitHead: string, stem: string)
    ensures RegisterLines(journal + RegisterLines(journal, gitHead, stem), gitHead, stem) == []
    ensures exists e :: e in journal + RegisterLines(journal, gitHead, stem) && e.Registered? && e.eid == DeriveEid(gitHead, stem)
  {
    var lines := RegisterLines(journal, gitHead, stem);
    if lines == [] {
      assert journal + lines == journal;
    } else {
      assert lines[0] in journal + lines;
    }
  }

  // ---- steps ----

  datatype Step =
    | RegisterStep(gitHead: string, stem: string)
    | IngestStep(nodes: SpecNodes, declared: set<string>, cs: Changeset, rcs: seq<OpReceipt>)
    | RefreshStep(setup: R.Setup, snapshot: Option<Node>, tree: Node, changes: seq<LeafChange>)

  /** What the commands and the plan hold to: plain heads, dated proposals, op ids as the builder derives them. */
  ghost predicate WellFormed(step: Step) {
    match step
    case RegisterStep(gitHead, stem) => PlainHead(gitHead) && Dated(stem)
    case IngestStep(_, _, cs, _) =>
      PlainHead(cs.gitHead) && DistinctAbsorbed(cs) && forall op :: op in cs.ops ==> "op-" <= op.opId
    case RefreshStep(_, snapshot, tree, changes) =>
      snapshot.Some? ==> IsDiff(LeavesOf(tree), LeavesOf(snapshot.value), changes)
  }

  /** The lines a step would append, or None when it refuses. */
  ghost function Contribution(journal: seq<Event>, step: Step): Option<seq<Event>> {
    match step
    case RegisterStep(gitHead, stem) => Some(RegisterLines(journal, gitHead, stem))
    case IngestStep(nodes, declared, cs, rcs) =>
      var r := Reconcile(nodes, declared, journal, cs, rcs);
      if r.Ok? then Some(r.value) else None
    case RefreshStep(setup, snapshot, tree, changes) =>
      var r := R.Prepared(setup, journal, snapshot, tree, changes);
      if r.Ok? then Some(r.value) else None
  }

  /** A step appends its whole contribution, or nothing: it refused, or the write did not land. */
  ghost predicate Next(journal: seq<Event>, step: Step, after: seq<Event>) {
    after == journal ||
    (Contribution(journal, step).Some? && after == journal + Contribution(journal, step).value)
  }

  // ---- what every journal holds to ----

  /** An eid of the form a registration derives. */
  ghost predicate DatedEid(eid: string) {
    exists gitHead, stem :: PlainHead(gitHead) && Dated(stem) && eid == DeriveEid(gitHead, stem)
  }

  /** Registrations and changes draw their eids from different families. */
  ghost predicate FamiliesApart(events: seq<Event>) {
    forall e :: e in events && e.Change? ==> !DatedEid(e.eid)
  }

  ghost predicate Shaped(events: seq<Event>) {
    forall e :: e in events ==> LineShape(e)
  }

  ghost predicate Safe(journal: seq<Event>) {
    Sound(journal) && SinglyPaired(journal) && Shaped(journal) && FamiliesApart(journal)
  }

  lemma HeadsAgree(g: string, s: string, h: string, t: string)
    requires PlainHead(g) && PlainHead(h)
    ensures DeriveEid(g, s) == DeriveEid(h, t) ==> s == t
  {
    var d, e := DeriveEid(g, s), DeriveEid(h, t);
    assert d[|g|] == ':' && e[|h|] == ':';
    assert |g| < |h| ==> e[|g|] == h[|g|] && h[|g|] in h;
    assert |h| < |g| ==> d[|h|] == g[|h|] && g[|h|] in g;
    assert s == d[|g| + 1..] && t == e[|h| + 1..];
  }

  lemma OpEidApart(gitHead: string, opId: string)
    requires PlainHead(gitHead) && "op-" <= opId
    ensures !DatedEid(DeriveEid(gitHead, opId))
  {
    assert opId[0] == 'o';
    forall g, stem | PlainHead(g) && Dated(stem)
      ensures DeriveEid(gitHead, opId) != DeriveEid(g, stem)
    {
      HeadsAgree(gitHead, opId, g, stem);
    }
  }

  lemma RefreshEidApart(eid: string)
    requires eid != "" && eid[0] == 'r'
    ensures !DatedEid(eid)
  {
    forall g, stem | PlainHead(g) && Dated(stem)
      ensures eid != DeriveEid(g, stem)
    {
      assert DeriveEid(g, stem)[0] == g[0] && g[0] in g;
    }
  }

  // ---- registrations ----

  lemma RegisterKeeps(journal: seq<Event>, gitHead: string, stem: string)
    requires Safe(journal) && PlainHead(gitHead) && Dated(stem)
    ensures Safe(journal + RegisterLines(journal, gitHead, stem))
  {
    var lines := RegisterLines(journal, gitHead, stem);
    if lines == [] {
      assert journal + lines == journal;
    } else {
      var eid := DeriveEid(gitHead, stem);
      assert !Carried(journal, eid) by {
        assert DatedEid(eid);
      }
      assert lines[0] in lines;
      SoundAppend(journal, lines);
      UnpairedAppend(journal, lines);
    }
  }

  lemma {:induction false} NoPairings(lines: seq<Event>, kind: ReceiptKind, referent: Referent)
    requires forall e :: e in lines ==> !e.Receipt?
    ensures Pairings(lines, kind, referent) == 0
  {
    if lines != [] {
      NoPairings(lines[..|lines| - 1], kind, referent);
    }
  }

  lemma UnpairedAppend(journal: seq<Event>, lines: seq<Event>)
    requires SinglyPaired(journal) && forall e :: e in lines ==> !e.Receipt?
    ensures SinglyPaired(journal + lines)
  {
    forall kind, referent {:trigger Pairings(journal + lines, kind, referent)} | Paired(kind, referent)
      ensures Pairings(journal + lines, kind, referent) <= 1
    {
      PairingsConcat(journal, lines, kind, referent);
      NoPairings(lines, kind, referent);
    }
  }

  // ---- refreshes ----

  lemma {:induction false} DriftApart(setup: R.Setup, journal: seq<Event>, changes: seq<LeafChange>)
    ensures FamiliesApart(R.DriftEvents(setup, journal, changes))
  {
    if changes != [] {
      var init, c := changes[..|changes| - 1], changes[|changes| - 1];
      DriftApart(setup, journal, init);
      var seen := EidSet(journal) + EidSet(R.DriftEvents(setup, journal, init));
      R.FreshEidNonEmpty(seen, c);
      RefreshEidApart(R.FreshEid(seen, R.BaseEid(c)));
    }
  }

  lemma RefreshKeeps(setup: R.Setup, journal: seq<Event>, snapshot: Option<Node>, tree: Node, changes: seq<LeafChange>)
    requires Safe(journal) && R.Prepared(setup, journal, snapshot, tree, changes).Ok?
    ensures Safe(journal + R.Prepared(setup, journal, snapshot, tree, changes).value)
  {
    var batch := R.RefreshBatch(setup, journal, changes);
    R.RefreshSound(setup, journal, changes);
    R.RefreshFresh(setup, journal, changes);
    UnpairedAppend(journal, batch);
    DriftApart(setup, journal, changes);
  }

  // ---- ingest runs ----

  lemma OpApart(st: BuilderState, cs: Changeset, op: Op, rc: OpReceipt)
    requires PlainHead(cs.gitHead) && "op-" <= op.opId && OpLines(st, cs, op, rc).Ok?
    ensures FamiliesApart(OpLines(st, cs, op, rc).value)
  {
    hide DatedEid;
    OpEidApart(cs.gitHead, op.opId);
    forall e | e in OpLines(st, cs, op, rc).value && e.Change?
      ensures e.eid == OpEid(cs, op)
    {
    }
  }

  lemma {:induction false} OpsApart(nodes: SpecNodes, base: seq<Event>, cs: Changeset, byOp: map<string, OpReceipt>, n: nat)
    requires n <= |cs.ops| && Covers(byOp, cs) && BatchUpTo(StateFor(nodes, base), cs, byOp, n).Ok?
    requires PlainHead(cs.gitHead) && forall op :: op in cs.ops ==> "op-" <= op.opId
    ensures FamiliesApart(Part(StateFor(nodes, base), cs, byOp, n))
  {
    hide OpLines, DatedEid, StateFor;
    if n > 0 {
      var st := StateFor(nodes, base);
      BatchParts(st, cs, byOp, n - 1, n);
      OpsApart(nodes, base, cs, byOp, n - 1);
      OpApart(WithBatch(st, Part(st, cs, byOp, n - 1)), cs, cs.ops[n - 1], byOp[cs.ops[n - 1].opId]);
    }
  }

  lemma {:induction false} AbsorbedApart(st: BuilderState, cs: Changeset, entries: seq<AbsorbedEntry>)
    requires AbsorbedEvents(st, cs, entries).Ok?
    ensures FamiliesApart(AbsorbedEvents(st, cs, entries).value)
  {
    if entries != [] {
      AbsorbedApart(st, cs, entries[..|entries| - 1]);
      RefreshEidApart(AbsorbedEid(entries[|entries| - 1]));
    }
  }

  lemma BatchApart(nodes: SpecNodes, base: seq<Event>, cs: Changeset, byOp: map<string, OpReceipt>, batch: seq<Event>)
    requires Covers(byOp, cs) && Ran(nodes, base, cs, byOp, batch)
    requires PlainHead(cs.gitHead) && forall op :: op in cs.ops ==> "op-" <= op.opId
    ensures FamiliesApart(batch)
  {
    hide OpLines, FoldOf, FullBatch, DistinctEids, NoDangling, DatedEid;
    var st, ops := StateFor(nodes, base), Part(StateFor(nodes, base), cs, byOp, |cs.ops|);
    var absorbed := RunSplits(nodes, base, cs, byOp, batch);
    OpsApart(nodes, base, cs, byOp, |cs.ops|);
    AbsorbedApart(WithBatch(st, ops), cs, cs.absorbed);
  }

  lemma IngestKeeps(nodes: SpecNodes, declared: set<string>, journal: seq<Event>, cs: Changeset, rcs: seq<OpReceipt>)
    requires Safe(journal) && WellFormed(IngestStep(nodes, declared, cs, rcs)) && Reconcile(nodes, declared, journal, cs, rcs).Ok?
    ensures Safe(journal + Reconcile(nodes, declared, journal, cs, rcs).value)
  {
    hide FullBatch, StateFor, DatedEid;
    var byOp, batch := ReceiptIndex(rcs), Reconcile(nodes, declared, journal, cs, rcs).value;
    RunSound(nodes, journal, cs, byOp, batch);
    BatchApart(nodes, journal, cs, byOp, batch);
    if batch == [] {
      assert journal + batch == journal;
    }
  }

  // ---- runs ----

  lemma StepKeeps(journal: seq<Event>, step: Step, after: seq<Event>)
    requires Safe(journal) && WellFormed(step) && Next(journal, step, after)
    ensures Safe(after) && journal <= after
  {
    hide Safe, Reconcile, R.Prepared, RegisterLines;
    if after != journal {
      match step
      case RegisterStep(gitHead, stem) => RegisterKeeps(journal, gitHead, stem);
      case IngestStep(nodes, declared, cs, rcs) => IngestKeeps(nodes, declared, journal, cs, rcs);
      case RefreshStep(setup, snapshot, tree, changes) => RefreshKeeps(setup, journal, snapshot, tree, changes);
    }
  }

  ghost predicate Run(steps: seq<Step>, states: seq<seq<Event>>) {
    && |states| == |steps| + 1 && states[0] == []
    && (forall i :: 0 <= i < |steps| ==> WellFormed(steps[i]))
    && (forall i :: 0 <= i < |steps| ==> Next(states[i], steps[i], states[i + 1]))
  }

  /** A sound journal has no receipt that answers nothing. */
  lemma NothingDangles(journal: seq<Event>)
    requires Sound(journal)
    ensures FoldOf(journal).dangling == []
  {
    var dangling := FoldOf(journal).dangling;
    if dangling != [] {
      DanglingExactly(journal, dangling[0]);
    }
  }

  lemma {:induction false} RunsSafe(steps: seq<Step>, states: seq<seq<Event>>, n: nat)
    requires Run(steps, states) && n <= |steps|
    ensures Safe(states[n])
    ensures forall i :: 0 <= i <= n ==> states[i] <= states[n]
  {
    hide Safe, Next, WellFormed;
    if n == 0 {
      EmptySafe();
    } else {
      RunsSafe(steps, states, n - 1);
      StepKeeps(states[n - 1], steps[n - 1], states[n]);
    }
  }

  lemma EmptySafe()
    ensures Safe([])
  {
  }

  /**
   Safety over all runs: the journal only ever grows, its eids are distinct, no referent is paired twice,
   every line has the shape of a line, and the fold reports no dangling receipt.
   */
  lemma JournalSafe(steps: seq<Step>, states: seq<seq<Event>>, i: nat, j: nat)
    requires Run(steps, states) && i <= j <= |steps|
    ensures states[i] <= states[j]
    ensures DistinctEids(states[j]) && SinglyPaired(states[j]) && Shaped(states[j])
    ensures FoldOf(states[j]).dangling == []
  {
    RunsSafe(steps, states, j);
    NothingDangles(states[j]);
  }
}
