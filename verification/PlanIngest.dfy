/**
 The seams between planning and ingest: the planner's view of the journal, the
 absorb marks, and what the two sides owe each other.
 */
module PlanIngest {
  import opened Results
  import opened Order
  import opened Bags
  import opened PlanTypes
  import opened Merkle
  import opened Journal
  import opened FoldSpec
  import opened JournalGrowth
  import opened EventBuilder
  import opened InvariantChecker
  import opened Reconciler
  import opened IngestLaws
  import opened Idempotence
  import opened SpecGraph
  import opened Resolver
  import opened Labeler
  import opened Matcher
  import opened Classifier
  import opened Builder
  import L = ChangesetLaws

  // ---- the planner's view of the fold ----

  function NodeOf(e: Event): string {
    if e.Change? then e.node else ""
  }

  function PairingFrom(e: FoldEntry, status: map<string, string>): Pairing {
    Pairing(e.key, e.task, NodeTypeOf(e.source), ModOf(e.source), NameOf(e.source),
            if e.task in status then status[e.task] else "", OrEmpty(AfterOf(e.source)))
  }

  function Matchable(status: map<string, string>): FoldEntry -> seq<Pairing> {
    (e: FoldEntry) => if e.removed || NodeOf(e.source) == "" then [] else [PairingFrom(e, status)]
  }

  /** The task-bearing node entries: no epics, no tombstones. */
  method PairingsForMatching(entries: seq<FoldEntry>, status: map<string, string>) returns (out: seq<Pairing>)
    ensures out == FlatMap(Matchable(status), entries)
  {
    out := [];
    for k := 0 to |entries|
      invariant out == FlatMap(Matchable(status), entries[..k])
    {
      FlatMapNext(Matchable(status), entries, k);
      assert out + [] == out;
      if !(entries[k].removed || NodeOf(entries[k].source) == "") {
        out := out + [PairingFrom(entries[k], status)];
      }
    }
    assert entries[..|entries|] == entries;
  }

  /** Epics included, so that parents resolve; removals by the eid that landed them. */
  function FoldView(entries: seq<FoldEntry>, status: map<string, string>): PlanFold {
    if entries == [] then
      PlanFold(map[], map[])
    else
      var before := FoldView(entries[..|entries| - 1], status);
      var e := entries[|entries| - 1];
      if e.removed then before.(removal := before.removal[e.key := EidOf(e.source)])
      else before.(lookup := before.lookup[e.key := PairingFrom(e, status)])
  }

  method NewPlanFold(entries: seq<FoldEntry>, status: map<string, string>) returns (fold: PlanFold)
    ensures fold == FoldView(entries, status)
  {
    var lookup: map<string, Pairing>, removal: map<string, string> := map[], map[];
    for k := 0 to |entries|
      invariant PlanFold(lookup, removal) == FoldView(entries[..k], status)
    {
      assert entries[..k + 1][..k] == entries[..k];
      var e := entries[k];
      if e.removed {
        removal := removal[e.key := EidOf(e.source)];
      } else {
        lookup := lookup[e.key := PairingFrom(e, status)];
      }
    }
    assert entries[..|entries|] == entries;
    return PlanFold(lookup, removal);
  }

  /** The latest registration of the proposal, empty when there is none. */
  function Registration(events: seq<Event>, proposal: string): string {
    if proposal in RegisteredBy(events) then RegisteredBy(events)[proposal] else ""
  }

  method ResolvePlanRegistration(events: seq<Event>, proposal: string) returns (eid: string)
    ensures eid == Registration(events, proposal)
  {
    eid := "";
    for k := 0 to |events|
      invariant eid == Registration(events[..k], proposal)
    {
      assert events[..k + 1][..k] == events[..k];
      if events[k].Registered? && events[k].proposal == proposal {
        eid := events[k].eid;
      }
    }
    assert events[..|events|] == events;
  }

  // ---- absorb marks ----

  /** A node marked as cosmetic, with the authored reason. */
  datatype AbsorbMark = AbsorbMark(node: string, reason: string)

  datatype AbsorbError = NotANodeId(node: string) | NotModified(node: string)

  datatype Withheld = Withheld(absorbed: seq<AbsorbedEntry>, remaining: seq<NodeChange>)

  /** The last change of the node. */
  function ChangeOf(changes: seq<NodeChange>, node: string): (r: Option<NodeChange>)
    ensures r.Some? ==> r.value in changes && r.value.key == node
    ensures r.None? ==> forall c :: c in changes ==> c.key != node
  {
    if changes == [] then
      None
    else
      var init, last := changes[..|changes| - 1], changes[|changes| - 1];
      assert changes == init + [last];
      if last.key == node then Some(last) else ChangeOf(init, node)
  }

  function MarkError(changes: seq<NodeChange>, m: AbsorbMark): Option<AbsorbError> {
    var c := ChangeOf(changes, m.node);
    if !IsHash(m.node) then Some(NotANodeId(m.node))
    else if c.None? || c.value.kind != LeafModified then Some(NotModified(m.node))
    else None
  }

  function AbsorbedBy(changes: seq<NodeChange>, m: AbsorbMark): AbsorbedEntry {
    var c := ChangeOf(changes, m.node);
    if c.None? then AbsorbedEntry(m.node, "", "", m.reason) else AbsorbedEntry(m.node, c.value.oldHash, c.value.newHash, m.reason)
  }

  function MarkedNodes(marks: seq<AbsorbMark>): set<string> {
    set m | m in marks :: m.node
  }

  function Unmarked(nodes: set<string>): NodeChange -> seq<NodeChange> {
    (c: NodeChange) => if c.key in nodes then [] else [c]
  }

  /** The first faulty mark refuses the run; otherwise marks become entries in order and their changes are withheld. */
  ghost predicate AbsorbOutcome(marks: seq<AbsorbMark>, changes: seq<NodeChange>, r: Result<Withheld, AbsorbError>) {
    match r
    case Err(e) =>
      exists k :: 0 <= k < |marks| && MarkError(changes, marks[k]) == Some(e)
                  && forall j :: 0 <= j < k ==> MarkError(changes, marks[j]) == None
    case Ok(w) =>
      && (forall m :: m in marks ==> MarkError(changes, m) == None)
      && |w.absorbed| == |marks| && (forall k :: 0 <= k < |marks| ==> w.absorbed[k] == AbsorbedBy(changes, marks[k]))
      && w.remaining == FlatMap(Unmarked(MarkedNodes(marks)), changes)
  }

  method IndexChanges(changes: seq<NodeChange>) returns (byKey: map<string, NodeChange>)
    ensures forall k :: ChangeOf(changes, k) == if k in byKey then Some(byKey[k]) else None
  {
    byKey := map[];
    for i := 0 to |changes|
      invariant forall k :: ChangeOf(changes[..i], k) == if k in byKey then Some(byKey[k]) else None
    {
      assert changes[..i + 1][..i] == changes[..i];
      byKey := byKey[changes[i].key := changes[i]];
    }
    assert changes[..|changes|] == changes;
  }

  method ApplyAbsorb(marks: seq<AbsorbMark>, changes: seq<NodeChange>) returns (r: Result<Withheld, AbsorbError>)
    ensures AbsorbOutcome(marks, changes, r)
  {
    var byKey := IndexChanges(changes);
    var withheld: set<string>, absorbed: seq<AbsorbedEntry> := {}, [];
    for k := 0 to |marks|
      invariant forall j :: 0 <= j < k ==> MarkError(changes, marks[j]) == None
      invariant |absorbed| == k && forall j :: 0 <= j < k ==> absorbed[j] == AbsorbedBy(changes, marks[j])
      invariant withheld == MarkedNodes(marks[..k])
    {
      var m := marks[k];
      assert marks[..k + 1] == marks[..k] + [m];
      assert ChangeOf(changes, m.node) == if m.node in byKey then Some(byKey[m.node]) else None;
      if !IsHash(m.node) {
        return Err(NotANodeId(m.node));
      }
      if m.node !in byKey || byKey[m.node].kind != LeafModified {
        return Err(NotModified(m.node));
      }
      absorbed := absorbed + [AbsorbedEntry(m.node, byKey[m.node].oldHash, byKey[m.node].newHash, m.reason)];
      withheld := withheld + {m.node};
    }
    assert marks[..|marks|] == marks;
    var remaining: seq<NodeChange> := [];
    for k := 0 to |changes|
      invariant remaining == FlatMap(Unmarked(withheld), changes[..k])
    {
      FlatMapNext(Unmarked(withheld), changes, k);
      assert remaining + [] == remaining;
      if changes[k].key !in withheld {
        remaining := remaining + [changes[k]];
      }
    }
    assert changes[..|changes|] == changes;
    return Ok(Withheld(absorbed, remaining));
  }

  // ---- what the view shows ----

  ghost predicate OneEntryPerKey(entries: seq<FoldEntry>) {
    forall a, b :: a in entries && b in entries && a.key == b.key ==> a == b
  }

  lemma FoldKeys(journal: seq<Event>)
    ensures OneEntryPerKey(FoldOf(journal).entries)
    ensures forall e :: e in FoldOf(journal).entries <==> Linkage(journal, e.key) == Some(e)
  {
    FoldListsLinkage(journal);
  }

  lemma {:induction false} ViewOf(entries: seq<FoldEntry>, status: map<string, string>, e: FoldEntry)
    requires OneEntryPerKey(entries) && e in entries
    ensures var v := FoldView(entries, status);
            if e.removed then e.key !in v.lookup && e.key in v.removal && v.removal[e.key] == EidOf(e.source)
            else e.key !in v.removal && e.key in v.lookup && v.lookup[e.key] == PairingFrom(e, status)
  {
    var init, last := entries[..|entries| - 1], entries[|entries| - 1];
    assert entries == init + [last];
    if e in init {
      ViewOf(init, status, e);
    } else {
      AbsentFromView(init, status, e.key);
    }
  }

  lemma {:induction false} AbsentFromView(entries: seq<FoldEntry>, status: map<string, string>, key: string)
    requires forall e :: e in entries ==> e.key != key
    ensures key !in FoldView(entries, status).lookup && key !in FoldView(entries, status).removal
  {
    if entries != [] {
      var init := entries[..|entries| - 1];
      assert entries == init + [entries[|entries| - 1]];
      AbsentFromView(init, status, key);
    }
  }

  /** The view answers every key as the fold's linkage does. */
  lemma ViewIsLinkage(journal: seq<Event>, status: map<string, string>, key: string)
    ensures var v, l := FoldView(FoldOf(journal).entries, status), Linkage(journal, key);
            && (key in v.lookup <==> l.Some? && !l.value.removed)
            && (key in v.removal <==> l.Some? && l.value.removed)
            && (key in v.lookup ==> v.lookup[key] == PairingFrom(l.value, status))
            && (key in v.removal ==> v.removal[key] == EidOf(l.value.source))
  {
    hide Linkage, FoldView, PairingFrom;
    FoldKeys(journal);
    var entries, l := FoldOf(journal).entries, Linkage(journal, key);
    LinkageSourced(journal, key);
    if l.Some? {
      LinkageKey(journal, key);
      ViewOf(entries, status, l.value);
    } else {
      AbsentFromView(entries, status, key);
    }
  }

  lemma LinkageKey(journal: seq<Event>, key: string)
    requires Linkage(journal, key).Some?
    ensures Linkage(journal, key).value.key == key
  {
    LinkageSourced(journal, key);
  }

  /** What matching sees of a node: its linkage, unless removed or an epic's. */
  lemma PairingIs(journal: seq<Event>, status: map<string, string>, node: string, p: Pairing)
    ensures p in Records(FlatMap(Matchable(status), FoldOf(journal).entries), node) <==>
            var l := Linkage(journal, node);
            l.Some? && !l.value.removed && NodeOf(l.value.source) != "" && p == PairingFrom(l.value, status)
  {
    var entries := FoldOf(journal).entries;
    var all := FlatMap(Matchable(status), entries);
    FoldKeys(journal);
    FlatMapMember(WithNode(node), all, p);
    FlatMapMember(Matchable(status), entries, p);
    var l := Linkage(journal, node);
    if l.Some? {
      LinkageKey(journal, node);
      assert l.value in entries;
    }
  }

  // ---- no rework ----

  /** The journal already carries what the change asks for: its hash on the node's entry, or the node's removal. */
  predicate Landed(l: Option<FoldEntry>, c: NodeChange) {
    l.Some? &&
    if c.kind == LeafRemoved then l.value.removed
    else !l.value.removed && NodeOf(l.value.source) != "" && c.newHash != "" && AfterOf(l.value.source) == Some(c.newHash)
  }

  lemma LandedRecords(journal: seq<Event>, status: map<string, string>, c: NodeChange)
    requires Landed(Linkage(journal, c.key), c)
    ensures var records := Records(FlatMap(Matchable(status), FoldOf(journal).entries), c.key);
            if c.kind == LeafRemoved then records == []
            else records != [] && forall p :: p in records ==> AlreadyTracked(p, c)
  {
    var records := Records(FlatMap(Matchable(status), FoldOf(journal).entries), c.key);
    var l := Linkage(journal, c.key);
    PairingIs(journal, status, c.key, PairingFrom(l.value, status));
    forall p | p in records
      ensures c.kind != LeafRemoved && AlreadyTracked(p, c)
    {
      PairingIs(journal, status, c.key, p);
    }
    if records != [] {
      assert records[0] in records;
    }
  }

  /** A raw action of the node can only be the close of a section folded back into its component. */
  lemma RawOwesNothing(changes: seq<NodeChange>, pairings: seq<Pairing>, r: Correlated, graph: Specs, c: NodeChange, a: Action)
    requires IsCorrelation(changes, pairings, r) && c in changes && (forall d :: d in changes && d.key == c.key ==> d == c)
    requires if c.kind == LeafRemoved then Records(pairings, c.key) == []
             else Records(pairings, c.key) != [] && forall p :: p in Records(pairings, c.key) ==> AlreadyTracked(p, c)
    requires a in RawActions(r, graph) && a.node == c.key
    ensures a.kind == ActionObsolete && IsFoldback(c, graph) && c.kind != LeafRemoved
  {
    if a in FlatMap(MatchActions(graph), r.matches) {
      FromMatchOwesNothing(changes, pairings, r, graph, c, a);
    } else if a in FlatMap(OrphanActions(), r.orphaned) {
      NoOrphan(changes, pairings, r, graph, c, a);
    } else {
      NoUnmatched(changes, pairings, r, graph, c, a);
    }
  }

  lemma MatchMade(pairings: seq<Pairing>, d: NodeChange, m: Match)
    requires m in MatchOf(pairings)(d)
    ensures m.change == d && d.kind != LeafRemoved && forall p :: p in m.records ==> p in Records(pairings, d.key)
  {
    hide Records;
    forall p | p in m.records
      ensures p in Records(pairings, d.key)
    {
      assert p in multiset(m.records);
    }
  }

  lemma RecordActionShape(c: NodeChange, graph: Specs, rec: Pairing, a: Action)
    requires a in RecordActions(c, graph)(rec)
    ensures a.node == c.key && (AlreadyTracked(rec, c) ==> a.kind == ActionObsolete && IsFoldback(c, graph))
  {
  }

  /** An action of a match comes from a surviving change and one of its node's pairings. */
  lemma MatchSource(changes: seq<NodeChange>, pairings: seq<Pairing>, graph: Specs, a: Action) returns (c: NodeChange, rec: Pairing)
    requires a in FlatMap(MatchActions(graph), FlatMap(MatchOf(pairings), changes))
    ensures c in changes && c.kind != LeafRemoved && rec in Records(pairings, c.key) && a in RecordActions(c, graph)(rec)
  {
    hide Records, RecordActions, MatchOf;
    var matches := FlatMap(MatchOf(pairings), changes);
    FlatMapMember(MatchActions(graph), matches, a);
    var m :| m in matches && a in MatchActions(graph)(m);
    FlatMapMember(MatchOf(pairings), changes, m);
    c :| c in changes && m in MatchOf(pairings)(c);
    MatchMade(pairings, c, m);
    FlatMapMember(RecordActions(m.change, graph), m.records, a);
    rec :| rec in m.records && a in RecordActions(m.change, graph)(rec);
  }

  lemma FromMatchOwesNothing(changes: seq<NodeChange>, pairings: seq<Pairing>, r: Correlated, graph: Specs, c: NodeChange, a: Action)
    requires IsCorrelation(changes, pairings, r) && c in changes && (forall d :: d in changes && d.key == c.key ==> d == c)
    requires forall p :: p in Records(pairings, c.key) ==> AlreadyTracked(p, c)
    requires a in FlatMap(MatchActions(graph), r.matches) && a.node == c.key
    ensures a.kind == ActionObsolete && IsFoldback(c, graph) && c.kind != LeafRemoved
  {
    hide IsOrphanList, Records, RecordActions, MatchOf, MatchActions, IsFoldback;
    var d, rec := MatchSource(changes, pairings, graph, a);
    RecordActionShape(d, graph, rec, a);
  }

  /** An orphan comes from a removed change and a pairing of its node. */
  lemma OrphanSource(changes: seq<NodeChange>, pairings: seq<Pairing>, o: Orphaned) returns (d: NodeChange)
    requires o in FlatMap(OrphansOf(pairings), changes)
    ensures d in changes && d.kind == LeafRemoved && o.record in Records(pairings, d.key) && o.record.node == d.key
  {
    FlatMapMember(OrphansOf(pairings), changes, o);
    d :| d in changes && o in OrphansOf(pairings)(d);
    FlatMapMember(AsOrphan(d.nodeType), Records(pairings, d.key), o);
    FlatMapMember(WithNode(d.key), pairings, o.record);
  }

  lemma OrphanActionShape(o: Orphaned, a: Action)
    requires a in OrphanActions()(o)
    ensures a.node == o.record.node
  {
  }

  lemma NoOrphan(changes: seq<NodeChange>, pairings: seq<Pairing>, r: Correlated, graph: Specs, c: NodeChange, a: Action)
    requires IsCorrelation(changes, pairings, r) && c in changes && (forall d :: d in changes && d.key == c.key ==> d == c)
    requires c.kind == LeafRemoved ==> Records(pairings, c.key) == []
    requires a.node == c.key
    ensures a !in FlatMap(OrphanActions(), r.orphaned)
  {
    hide Records, OrphansOf, OrphanActions;
    FlatMapMember(OrphanActions(), r.orphaned, a);
    forall o | o in r.orphaned
      ensures a !in OrphanActions()(o)
    {
      if a in OrphanActions()(o) {
        OrphanActionShape(o, a);
        var d := OrphanSource(changes, pairings, o);
      }
    }
  }

  lemma UnmatchedMade(pairings: seq<Pairing>, graph: Specs, d: NodeChange, u: NodeChange, a: Action)
    requires u in UnmatchedOf(pairings)(d) && a in UnmatchedActions(graph)(u)
    ensures u == d && d.kind != LeafRemoved && Records(pairings, d.key) == [] && a.node == d.key
  {
  }

  lemma NoUnmatched(changes: seq<NodeChange>, pairings: seq<Pairing>, r: Correlated, graph: Specs, c: NodeChange, a: Action)
    requires IsCorrelation(changes, pairings, r) && c in changes && (forall d :: d in changes && d.key == c.key ==> d == c)
    requires c.kind != LeafRemoved ==> Records(pairings, c.key) != []
    requires a.node == c.key
    ensures a !in FlatMap(UnmatchedActions(graph), r.unmatched)
  {
    hide Records, UnmatchedOf, UnmatchedActions, IsOrphanList;
    FlatMapMember(UnmatchedActions(graph), r.unmatched, a);
    forall u | u in r.unmatched
      ensures a !in UnmatchedActions(graph)(u)
    {
      if a in UnmatchedActions(graph)(u) {
        FlatMapMember(UnmatchedOf(pairings), changes, u);
        var d :| d in changes && u in UnmatchedOf(pairings)(d);
        UnmatchedMade(pairings, graph, d, u, a);
      }
    }
  }

  lemma ClassifiedFrom(r: Correlated, graph: Specs, a: Action) returns (raw: Action)
    requires Classified(r, graph).Ok? && a in Classified(r, graph).value
    ensures raw in RawActions(r, graph) && raw.node == a.node && raw.kind == a.kind && raw.reason == a.reason
    ensures raw.nodeType == a.nodeType && raw.task == a.task && raw.hash == a.hash
  {
    hide RawActions, Claims;
    var changes := ChangesOf(r.matches, r.unmatched);
    var all := FlatMap(AddOn(changes, graph), RawActions(r, graph));
    assert a in multiset(Classified(r, graph).value);
    assert a in all;
    FlatMapMember(AddOn(changes, graph), RawActions(r, graph), a);
    raw :| raw in RawActions(r, graph) && a in AddOn(changes, graph)(raw);
  }

  /**
   No rework: what already landed in the journal is not planned again, whatever the task artifact
   says.  The node gets no create, no retarget and no cleanup; only a folded-back section's task may
   still be closed.
   */
  lemma LandedNotPlanned(journal: seq<Event>, status: map<string, string>, changes: seq<NodeChange>, r: Correlated,
                         graph: Specs, c: NodeChange, a: Action)
    requires IsCorrelation(changes, FlatMap(Matchable(status), FoldOf(journal).entries), r)
    requires c in changes && (forall d :: d in changes && d.key == c.key ==> d == c)
    requires Landed(Linkage(journal, c.key), c)
    requires Classified(r, graph).Ok? && a in Classified(r, graph).value && a.node == c.key
    ensures a.kind == ActionObsolete && IsFoldback(c, graph) && c.kind != LeafRemoved
  {
    hide IsCorrelation, Classified, RawActions, Linkage;
    LandedRecords(journal, status, c);
    var raw := ClassifiedFrom(r, graph, a);
    RawOwesNothing(changes, FlatMap(Matchable(status), FoldOf(journal).entries), r, graph, c, raw);
  }
}
