/**
 The refresh run: absorbs drift between two cycles by one event per drifted leaf,
 closed by one receipt, and rewrites the snapshot.
 */
module Refresh {
  import opened Results
  import opened Order
  import opened Merkle
  import opened Journal
  import opened FoldSpec
  import opened JournalGrowth
  import opened EventBuilder
  import opened InvariantChecker

  const META := "meta"
  const MODULE := "module"

  datatype AbsorbDirections = AbsorbDirections(added: bool, removed: bool)

  datatype LiveMetadata = LiveMetadata(name: string, path: string)

  /** What a run is configured with: the profile's declarations, the live spec's names, and the git head. */
  datatype Setup = Setup(declared: set<string>, absorbable: map<string, AbsorbDirections>,
                         live: map<string, LiveMetadata>, gitHead: string)

  /** The frame's own leaf types are never absorbed; others as the profile says, refused by default. */
  predicate IsAbsorbable(nodeType: string, kind: ChangeType, absorbable: map<string, AbsorbDirections>) {
    nodeType != META && nodeType != MODULE && nodeType in absorbable &&
    match kind
    case LeafAdded => absorbable[nodeType].added
    case LeafRemoved => absorbable[nodeType].removed
    case LeafModified => false
  }

  /** Additions or removals the profile does not absorb. */
  function RefusedKeys(changes: seq<LeafChange>, kind: ChangeType, absorbable: map<string, AbsorbDirections>): seq<string> {
    if changes == [] then
      []
    else
      var c := changes[|changes| - 1];
      RefusedKeys(changes[..|changes| - 1], kind, absorbable) +
      if c.kind == kind && !IsAbsorbable(c.nodeType, kind, absorbable) then [c.key] else []
  }

  // ---- eids ----

  function Digit(d: nat): char
    requires d < 10
  {
    '0' + d as char
  }

  function Decimal(n: nat): string {
    if n < 10 then [Digit(n)] else Decimal(n / 10) + [Digit(n % 10)]
  }

  function DecimalValue(s: string): int {
    if s == [] then 0 else 10 * DecimalValue(s[..|s| - 1]) + (s[|s| - 1] as int - '0' as int)
  }

  lemma {:induction false} DecimalReads(n: nat)
    ensures DecimalValue(Decimal(n)) == n
  {
    if n < 10 {
      assert [Digit(n)][..0] == [];
    } else {
      DecimalReads(n / 10);
      var s := Decimal(n);
      assert s[..|s| - 1] == Decimal(n / 10);
    }
  }

  /** The n-th candidate for an eid: the base itself, then the base with a number behind it. */
  function Candidate(base: string, n: nat): string {
    if n <= 1 then base else base + "#" + Decimal(n)
  }

  lemma CandidatesDiffer(base: string, m: nat, n: nat)
    requires 1 <= m < n
    ensures Candidate(base, m) != Candidate(base, n)
  {
    var s := base + "#";
    assert Candidate(base, n)[|s|..] == Decimal(n);
    DecimalReads(n);
    if m > 1 {
      assert Candidate(base, m)[|s|..] == Decimal(m);
      DecimalReads(m);
    }
  }

  /** `n` is the first free candidate. */
  ghost predicate FirstFree(seen: set<string>, base: string, n: nat) {
    n >= 1 && Candidate(base, n) !in seen && forall m :: 1 <= m < n ==> Candidate(base, m) in seen
  }

  lemma FirstFreeUnique(seen: set<string>, base: string, m: nat, n: nat)
    requires FirstFree(seen, base, m) && FirstFree(seen, base, n)
    ensures m == n
  {
  }

  lemma UsedBounded(seen: set<string>, base: string, n: nat)
    requires n >= 1 && forall m :: 1 <= m < n ==> Candidate(base, m) in seen
    ensures n - 1 <= |seen|
  {
    var used := seq(n - 1, i requires 0 <= i < n - 1 => Candidate(base, i + 1));
    forall i, j | 0 <= i < j < |used|
      ensures used[i] != used[j]
    {
      CandidatesDiffer(base, i + 1, j + 1);
    }
    forall x | x in used
      ensures x in seen
    {
      var i :| 0 <= i < |used| && used[i] == x;
      assert Candidate(base, i + 1) in seen;
    }
    NoDuplicatesMultiset(used);
    var elements := set x | x in used;
    assert |used| == |multiset(used)| == |multiset(elements)| == |elements|;
    assert elements <= seen;
    assert |seen| == |elements| + |seen - elements| by { assert seen == elements + (seen - elements); }
  }

  /** Terminates with an eid no line carries: the first free candidate. */
  method UniqueRefreshEid(seen: set<string>, base: string) returns (eid: string, ghost n: nat)
    ensures FirstFree(seen, base, n) && eid == Candidate(base, n)
  {
    eid, n := base, 1;
    var k := 2;
    while eid in seen
      invariant n >= 1 && k == n + 1 && eid == Candidate(base, n)
      invariant forall m :: 1 <= m < n ==> Candidate(base, m) in seen
      decreases |seen| - n
    {
      UsedBounded(seen, base, n + 1);
      eid := base + "#" + Decimal(k);
      n, k := n + 1, k + 1;
    }
  }

  lemma FreeExists(seen: set<string>, base: string) returns (n: nat)
    ensures FirstFree(seen, base, n)
  {
    n := 1;
    while Candidate(base, n) in seen
      invariant n >= 1 && forall m :: 1 <= m < n ==> Candidate(base, m) in seen
      decreases |seen| - n
    {
      UsedBounded(seen, base, n + 1);
      n := n + 1;
    }
  }

  lemma FreeExistsFact(seen: set<string>, base: string)
    ensures exists n :: FirstFree(seen, base, n)
  {
    var n := FreeExists(seen, base);
  }

  ghost function FreshEid(seen: set<string>, base: string): (eid: string)
    ensures eid !in seen
  {
    FreeExistsFact(seen, base);
    var n :| FirstFree(seen, base, n);
    Candidate(base, n)
  }

  // ---- events ----

  /** The latest change event of a node. */
  function LastChange(events: seq<Event>, node: string): Option<Event> {
    if events == [] then
      None
    else
      var e := events[|events| - 1];
      if e.Change? && e.node == node then Some(e) else LastChange(events[..|events| - 1], node)
  }

  /** The journal already says what this change would have it say, or the leaf has no events at all. */
  predicate Skips(last: Option<Event>, c: LeafChange) {
    match c.kind
    case LeafAdded => last.Some? && last.value.Change? && last.value.change == Added
    case LeafModified =>
      c.nodeType == META ||
      (last.Some? && last.value.Change? && last.value.change == Modified
       && OrEmpty(last.value.before) == c.oldHash && OrEmpty(last.value.after) == c.newHash)
    case LeafRemoved => last.Some? && last.value.Change? && last.value.change == Removed
  }

  function BaseEid(c: LeafChange): string {
    match c.kind
    case LeafAdded => RefreshEid(c.key, None, Some(c.newHash))
    case LeafModified => RefreshEid(c.key, Some(c.oldHash), Some(c.newHash))
    case LeafRemoved => RefreshEid(c.key, Some(c.oldHash), None)
  }

  function LiveAt(setup: Setup, key: string): LiveMetadata {
    if key in setup.live then setup.live[key] else LiveMetadata("", "")
  }

  /** The name and path of a node that is gone: from its fold entry, else from its last change. */
  function Biography(entries: seq<FoldEntry>, last: Option<Event>, key: string): LiveMetadata {
    var entry := EntryByKey(entries, key);
    if entry.Some? then LiveMetadata(NameOf(entry.value.source), PathOf(entry.value.source))
    else if last.Some? then LiveMetadata(NameOf(last.value), PathOf(last.value))
    else LiveMetadata("", "")
  }

  /** The event a drifted leaf becomes. */
  function DriftEvent(setup: Setup, gone: LiveMetadata, c: LeafChange, eid: string): (e: Event)
    ensures e.Change? && e.node == c.key && e.eid == eid
  {
    var md := LiveAt(setup, c.key);
    match c.kind
    case LeafAdded =>
      Change(Added, eid, c.key, md.name, c.nodeType, c.mod, None, Some(c.newHash), setup.gitHead, "", md.path)
    case LeafModified =>
      Change(Modified, eid, c.key, md.name, c.nodeType, c.mod, Some(c.oldHash), Some(c.newHash), setup.gitHead, "", md.path)
    case LeafRemoved =>
      Change(Removed, eid, c.key, gone.name, c.nodeType, c.mod, Some(c.oldHash), None, setup.gitHead, "", gone.path)
  }

  /** The events of the changes, in order; each takes an eid none of the lines so far carries. */
  ghost function DriftEvents(setup: Setup, journal: seq<Event>, changes: seq<LeafChange>): seq<Event> {
    if changes == [] then
      []
    else
      var before := DriftEvents(setup, journal, changes[..|changes| - 1]);
      var c := changes[|changes| - 1];
      var last := LastChange(journal, c.key);
      if Skips(last, c) then
        before
      else
        before + [DriftEvent(setup, Biography(FoldOf(journal).entries, last, c.key), c,
                             FreshEid(EidSet(journal) + EidSet(before), BaseEid(c)))]
  }

  ghost function RefreshBatch(setup: Setup, journal: seq<Event>, changes: seq<LeafChange>): seq<Event> {
    var events := DriftEvents(setup, journal, changes);
    events + [Event.Refresh(setup.gitHead, EidsIn(events))]
  }

  ghost predicate GatesPass(setup: Setup, changes: seq<LeafChange>) {
    && RefusedKeys(changes, LeafAdded, setup.absorbable) == []
    && RefusedKeys(changes, LeafRemoved, setup.absorbable) == []
  }

  // ---- the run ----

  /** What the file system does to a run: whether each write lands, and whether the process dies between them. */
  datatype Disk = Disk(appendOk: bool, crashBetween: bool, snapshotOk: bool, rollbackOk: bool)

  datatype Outcome =
    | NonEmptyArtifacts
    | NoCompletedCycle
    | SnapshotAbsent
    | Unchanged
    | AddedRefused(keys: seq<string>)
    | RemovedRefused(keys: seq<string>)
    | BadBatch
    | AppendFailed
    | Crashed
    | SnapshotFailed(rolledBack: bool)
    | Saved(events: nat)

  /** The verdict of everything before the writes: a refusal, or the lines to append. */
  ghost function Prepared(setup: Setup, journal: seq<Event>, snapshot: Option<Node>, tree: Node,
                          changes: seq<LeafChange>): Result<seq<Event>, Outcome> {
    if journal == [] then Err(NoCompletedCycle)
    else if snapshot.None? then Err(SnapshotAbsent)
    else if changes == [] then Err(Unchanged)
    else if RefusedKeys(changes, LeafAdded, setup.absorbable) != [] then
      Err(AddedRefused(RefusedKeys(changes, LeafAdded, setup.absorbable)))
    else if RefusedKeys(changes, LeafRemoved, setup.absorbable) != [] then
      Err(RemovedRefused(RefusedKeys(changes, LeafRemoved, setup.absorbable)))
    else if exists e :: e in RefreshBatch(setup, journal, changes) && !LineValid(setup.declared, e) then Err(BadBatch)
    else Ok(RefreshBatch(setup, journal, changes))
  }

  /** The two files a refresh pairs. */
  class Workspace {
    var journal: seq<Event>
    var snapshot: Option<Node>

    constructor (snapshot: Option<Node>)
      ensures journal == [] && this.snapshot == snapshot
    {
      journal := [];
      this.snapshot := snapshot;
    }

    /** Everything up to the writes; the workspace is only read. */
    method Prepare(setup: Setup, tree: Node, ghost changes: seq<LeafChange>) returns (r: Result<seq<Event>, Outcome>)
      requires snapshot.Some? ==> IsDiff(LeavesOf(tree), LeavesOf(snapshot.value), changes)
      ensures r == Prepared(setup, journal, snapshot, tree, changes)
    {
      if journal == [] {
        return Err(NoCompletedCycle);
      }
      if snapshot.None? {
        return Err(SnapshotAbsent);
      }
      var drift := Diff(tree, snapshot);
      DiffUnique(LeavesOf(tree), LeavesOf(snapshot.value), drift, changes);
      if drift == [] {
        return Err(Unchanged);
      }
      var added := RefusedKeys(drift, LeafAdded, setup.absorbable);
      if added != [] {
        return Err(AddedRefused(added));
      }
      var removed := RefusedKeys(drift, LeafRemoved, setup.absorbable);
      if removed != [] {
        return Err(RemovedRefused(removed));
      }
      var batch := BuildBatch(setup, journal, drift);
      var valid := AllValid(setup.declared, batch);
      if !valid {
        return Err(BadBatch);
      }
      return Ok(batch);
    }

    /**
     One refresh run.  A refusal and a failed append change nothing; a failed snapshot write rolls the
     journal back when it can; only a crash between the writes leaves the journal ahead of the snapshot.
     */
    method Refresh(setup: Setup, tree: Node, artifactOps: nat, disk: Disk, ghost changes: seq<LeafChange>) returns (r: Outcome)
      requires snapshot.Some? ==> IsDiff(LeavesOf(tree), LeavesOf(snapshot.value), changes)
      modifies this
      ensures artifactOps > 0 ==> r == NonEmptyArtifacts && journal == old(journal) && snapshot == old(snapshot)
      ensures artifactOps == 0 ==>
                match Prepared(setup, old(journal), old(snapshot), tree, changes)
                case Err(refusal) => r == refusal && journal == old(journal) && snapshot == old(snapshot)
                case Ok(batch) =>
                  if !disk.appendOk then
                    r == AppendFailed && journal == old(journal) && snapshot == old(snapshot)
                  else if disk.crashBetween then
                    r == Crashed && journal == old(journal) + batch && snapshot == old(snapshot)
                  else if disk.snapshotOk then
                    r == Saved(|batch| - 1) && journal == old(journal) + batch && snapshot == Some(tree)
                  else
                    && r == SnapshotFailed(disk.rollbackOk) && snapshot == old(snapshot)
                    && journal == if disk.rollbackOk then old(journal) else old(journal) + batch
    {
      if artifactOps > 0 {
        return NonEmptyArtifacts;
      }
      var prepared := Prepare(setup, tree, changes);
      if prepared.Err? {
        return prepared.error;
      }
      var batch := prepared.value;
      var original := journal;
      if !disk.appendOk {
        return AppendFailed;
      }
      journal := journal + batch;
      if disk.crashBetween {
        return Crashed;
      }
      if !disk.snapshotOk {
        if disk.rollbackOk {
          journal := original;
        }
        return SnapshotFailed(disk.rollbackOk);
      }
      snapshot := Some(tree);
      return Saved(|batch| - 1);
    }
  }

  method LastChanges(journal: seq<Event>) returns (last: map<string, Event>)
    ensures forall k :: LastChange(journal, k) == if k in last then Some(last[k]) else None
  {
    last := map[];
    for i := 0 to |journal|
      invariant forall k :: LastChange(journal[..i], k) == if k in last then Some(last[k]) else None
    {
      assert journal[..i + 1][..i] == journal[..i];
      if journal[i].Change? {
        last := last[journal[i].node := journal[i]];
      }
    }
    assert journal[..|journal|] == journal;
  }

  lemma FreshEidIs(seen: set<string>, base: string, n: nat)
    requires FirstFree(seen, base, n)
    ensures FreshEid(seen, base) == Candidate(base, n)
  {
    FreeExistsFact(seen, base);
    var m :| FirstFree(seen, base, m) && FreshEid(seen, base) == Candidate(base, m);
    FirstFreeUnique(seen, base, m, n);
  }

  /** The events of one more change, and the eids taken so far. */
  lemma DriftStep(setup: Setup, journal: seq<Event>, changes: seq<LeafChange>, k: nat, n: nat)
    requires k < |changes| && var c := changes[k];
             !Skips(LastChange(journal, c.key), c)
             && FirstFree(EidSet(journal) + EidSet(DriftEvents(setup, journal, changes[..k])), BaseEid(c), n)
    ensures var c, before, last := changes[k], DriftEvents(setup, journal, changes[..k]), LastChange(journal, changes[k].key);
            var e := DriftEvent(setup, Biography(FoldOf(journal).entries, last, c.key), c, Candidate(BaseEid(c), n));
            && DriftEvents(setup, journal, changes[..k + 1]) == before + [e]
            && EidSet(before + [e]) == EidSet(before) + {e.eid}
            && EidsIn(before + [e]) == EidsIn(before) + [e.eid]
  {
    hide FirstFree, Skips, FoldOf, Biography, LastChange, BaseEid;
    var c, before, last := changes[k], DriftEvents(setup, journal, changes[..k]), LastChange(journal, changes[k].key);
    assert changes[..k + 1][..k] == changes[..k];
    var e := DriftEvent(setup, Biography(FoldOf(journal).entries, last, c.key), c, Candidate(BaseEid(c), n));
    FreshEidIs(EidSet(journal) + EidSet(before), BaseEid(c), n);
    BaseNonEmpty(c);
    CandidateNonEmpty(BaseEid(c), n);
    SeenGrows(before, e);
    assert (before + [e])[..|before|] == before;
  }

  lemma DriftSkip(setup: Setup, journal: seq<Event>, changes: seq<LeafChange>, k: nat)
    requires k < |changes| && Skips(LastChange(journal, changes[k].key), changes[k])
    ensures DriftEvents(setup, journal, changes[..k + 1]) == DriftEvents(setup, journal, changes[..k])
  {
    assert changes[..k + 1][..k] == changes[..k];
  }

  method BuildBatch(setup: Setup, journal: seq<Event>, changes: seq<LeafChange>) returns (batch: seq<Event>)
    ensures batch == RefreshBatch(setup, journal, changes)
  {
    hide DriftEvents, Skips, EidsIn, BaseEid, EidSet, FirstFree, Biography, DriftEvent, LastChange;
    var fold := FoldJournal(journal);
    var last := LastChanges(journal);
    var seen := EidSet(journal);
    var events: seq<Event>, absorbed: seq<string> := [], [];
    NoDrift(setup, journal, changes);
    for i := 0 to |changes|
      invariant events == DriftEvents(setup, journal, changes[..i]) && absorbed == EidsIn(events)
      invariant seen == EidSet(journal) + EidSet(events)
    {
      var c := changes[i];
      var latest := if c.key in last then Some(last[c.key]) else None;
      if Skips(latest, c) {
        DriftSkip(setup, journal, changes, i);
      } else {
        ghost var n;
        var eid;
        eid, n := UniqueRefreshEid(seen, BaseEid(c));
        DriftStep(setup, journal, changes, i, n);
        var event := DriftEvent(setup, Biography(fold.entries, latest, c.key), c, eid);
        events, absorbed, seen := events + [event], absorbed + [eid], seen + {eid};
      }
    }
    assert changes[..|changes|] == changes;
    return events + [Event.Refresh(setup.gitHead, absorbed)];
  }

  lemma NoDrift(setup: Setup, journal: seq<Event>, changes: seq<LeafChange>)
    ensures DriftEvents(setup, journal, changes[..0]) == [] && EidsIn([]) == [] && EidSet([]) == {}
  {
  }

  method AllValid(declared: set<string>, batch: seq<Event>) returns (ok: bool)
    ensures ok <==> forall e :: e in batch ==> LineValid(declared, e)
  {
    for k := 0 to |batch|
      invariant forall e :: e in batch[..k] ==> LineValid(declared, e)
    {
      if !LineValid(declared, batch[k]) {
        assert batch[k] in batch;
        return false;
      }
      assert batch[..k + 1] == batch[..k] + [batch[k]];
    }
    assert batch[..|batch|] == batch;
    return true;
  }

  lemma SeenGrows(events: seq<Event>, e: Event)
    requires EidOf(e) != ""
    ensures EidSet(events + [e]) == EidSet(events) + {EidOf(e)}
  {
    assert e in events + [e];
  }

  lemma BaseNonEmpty(c: LeafChange)
    ensures BaseEid(c) != "" && BaseEid(c)[0] == 'r'
  {
  }

  lemma CandidateNonEmpty(base: string, n: nat)
    requires base != ""
    ensures Candidate(base, n) != "" && Candidate(base, n)[0] == base[0]
  {
  }

  // ---- log and snapshot ----

  /** The event says what became of the leaf. */
  predicate Records(e: Event, c: LeafChange) {
    && e.Change? && e.node == c.key
    && match c.kind
       case LeafAdded => e.change == Added && e.before == None && e.after == Some(c.newHash)
       case LeafModified => e.change == Modified && e.before == Some(c.oldHash) && e.after == Some(c.newHash)
       case LeafRemoved => e.change == Removed && e.before == Some(c.oldHash) && e.after == None
  }

  /** The last of the changes that a run over this journal would log for node k. */
  function Logged(last: Option<Event>, changes: seq<LeafChange>, k: string): Option<LeafChange> {
    if changes == [] then
      None
    else
      var c := changes[|changes| - 1];
      if c.key == k && !Skips(last, c) then Some(c) else Logged(last, changes[..|changes| - 1], k)
  }

  ghost predicate Follows(latest: Option<Event>, last: Option<Event>, logged: Option<LeafChange>) {
    if logged.None? then latest == last else latest.Some? && Records(latest.value, logged.value)
  }

  lemma LastChangeSilent(a: seq<Event>, e: Event, k: string)
    ensures LastChange(a + [e], k) == if e.Change? && e.node == k then Some(e) else LastChange(a, k)
  {
    assert (a + [e])[..|a|] == a;
  }

  lemma {:induction false} LastAfterDrift(setup: Setup, journal: seq<Event>, changes: seq<LeafChange>, k: string)
    ensures Follows(LastChange(journal + DriftEvents(setup, journal, changes), k), LastChange(journal, k),
                    Logged(LastChange(journal, k), changes, k))
  {
    if changes == [] {
      assert journal + [] == journal;
    } else {
      var init, c := changes[..|changes| - 1], changes[|changes| - 1];
      LastAfterDrift(setup, journal, init, k);
      var before := DriftEvents(setup, journal, init);
      var last := LastChange(journal, c.key);
      if !Skips(last, c) {
        var e := DriftEvent(setup, Biography(FoldOf(journal).entries, last, c.key), c,
                            FreshEid(EidSet(journal) + EidSet(before), BaseEid(c)));
        assert Records(e, c);
        assert journal + (before + [e]) == (journal + before) + [e];
        LastChangeSilent(journal + before, e, k);
      }
    }
  }

  lemma LastAfterRefresh(setup: Setup, journal: seq<Event>, changes: seq<LeafChange>, k: string)
    ensures Follows(LastChange(journal + RefreshBatch(setup, journal, changes), k), LastChange(journal, k),
                    Logged(LastChange(journal, k), changes, k))
  {
    LastAfterDrift(setup, journal, changes, k);
    var events := DriftEvents(setup, journal, changes);
    var receipt := Event.Refresh(setup.gitHead, EidsIn(events));
    assert journal + (events + [receipt]) == (journal + events) + [receipt];
    LastChangeSilent(journal + events, receipt, k);
  }

  lemma {:induction false} LoggedSound(last: Option<Event>, changes: seq<LeafChange>, k: string)
    ensures var c := Logged(last, changes, k); c.Some? ==> c.value in changes && c.value.key == k && !Skips(last, c.value)
  {
    if changes != [] {
      LoggedSound(last, changes[..|changes| - 1], k);
    }
  }

  lemma {:induction false} LoggedFinds(last: Option<Event>, changes: seq<LeafChange>, c: LeafChange)
    requires c in changes && !Skips(last, c)
    ensures Logged(last, changes, c.key).Some?
  {
    var init := changes[..|changes| - 1];
    assert changes == init + [changes[|changes| - 1]];
    if c in init {
      LoggedFinds(last, init, c);
    }
  }

  /** Over a diff, what is logged for k is its change, unless the journal says it already. */
  lemma LoggedIs(last: Option<Event>, current: Leaves, prior: Leaves, changes: seq<LeafChange>, k: string)
    requires IsDiff(current, prior, changes)
    ensures Logged(last, changes, k) ==
            var c := ChangeAt(current, prior, k); if c.Some? && !Skips(last, c.value) then c else None
  {
    LoggedSound(last, changes, k);
    var c := ChangeAt(current, prior, k);
    if c.Some? && !Skips(last, c.value) {
      LoggedFinds(last, changes, c.value);
    }
  }

  /** A node the journal knows stands in the snapshot as its latest change event left it. */
  predicate AgreesAt(last: Option<Event>, leaves: Leaves, k: string) {
    last.Some? && last.value.Change? ==>
      if k !in leaves then last.value.change == Removed
      else leaves[k].nodeType != META ==> last.value.change != Removed && OrEmpty(last.value.after) == leaves[k].hash
  }

  ghost predicate Agreement(journal: seq<Event>, leaves: Leaves) {
    forall k {:trigger LastChange(journal, k)} :: AgreesAt(LastChange(journal, k), leaves, k)
  }

  /** A leaf that is meta in one tree is meta in the other. */
  ghost predicate MetaStable(current: Leaves, prior: Leaves) {
    forall k :: k in current && k in prior ==> (current[k].nodeType == META <==> prior[k].nodeType == META)
  }

  /** A refresh from prior to current passes the gates. */
  ghost predicate Passes(setup: Setup, current: Leaves, prior: Leaves, changes: seq<LeafChange>) {
    IsDiff(current, prior, changes) && GatesPass(setup, changes) && MetaStable(current, prior)
  }

  lemma {:induction false} RefusedFinds(changes: seq<LeafChange>, kind: ChangeType, absorbable: map<string, AbsorbDirections>, c: LeafChange)
    requires c in changes && c.kind == kind && RefusedKeys(changes, kind, absorbable) == []
    ensures IsAbsorbable(c.nodeType, kind, absorbable)
  {
    var init := changes[..|changes| - 1];
    assert changes == init + [changes[|changes| - 1]];
    if c in init {
      RefusedFinds(init, kind, absorbable, c);
    }
  }

  /** No meta leaf comes or goes in a run that passes the gates. */
  lemma MetaStays(setup: Setup, current: Leaves, prior: Leaves, changes: seq<LeafChange>, k: string)
    requires Passes(setup, current, prior, changes)
    ensures k in current && current[k].nodeType == META ==> k in prior && prior[k].nodeType == META
    ensures k in prior && prior[k].nodeType == META ==> k in current && current[k].nodeType == META
  {
    var c := ChangeAt(current, prior, k);
    if c.Some? {
      assert c.value in changes;
      if c.value.kind == LeafAdded {
        RefusedFinds(changes, LeafAdded, setup.absorbable, c.value);
      } else if c.value.kind == LeafRemoved {
        RefusedFinds(changes, LeafRemoved, setup.absorbable, c.value);
      }
    }
  }

  lemma RestoresAt(setup: Setup, journal: seq<Event>, current: Leaves, prior: Leaves, changes: seq<LeafChange>, k: string)
    requires Passes(setup, current, prior, changes) && AgreesAt(LastChange(journal, k), prior, k)
    ensures AgreesAt(LastChange(journal + RefreshBatch(setup, journal, changes), k), current, k)
  {
    hide RefreshBatch, IsDiff, LastChange, Logged;
    LastAfterRefresh(setup, journal, changes, k);
    LoggedIs(LastChange(journal, k), current, prior, changes, k);
    MetaStays(setup, current, prior, changes, k);
  }

  /** A refresh that saves restores the agreement of log and snapshot, against the new tree. */
  lemma RefreshRestores(setup: Setup, journal: seq<Event>, current: Leaves, prior: Leaves, changes: seq<LeafChange>)
    requires Passes(setup, current, prior, changes) && Agreement(journal, prior)
    ensures Agreement(journal + RefreshBatch(setup, journal, changes), current)
  {
    forall k
      ensures AgreesAt(LastChange(journal + RefreshBatch(setup, journal, changes), k), current, k)
    {
      RestoresAt(setup, journal, current, prior, changes, k);
    }
  }

  // ---- crashes between the two writes ----

  /** What a first run over an agreeing log would log for k is its change, meta leaves aside. */
  lemma FirstRunLogs(setup: Setup, journal: seq<Event>, current: Leaves, prior: Leaves, changes: seq<LeafChange>, k: string)
    requires Passes(setup, current, prior, changes) && AgreesAt(LastChange(journal, k), prior, k)
    ensures var c := ChangeAt(current, prior, k);
            Follows(LastChange(journal + RefreshBatch(setup, journal, changes), k), LastChange(journal, k),
                    if c.Some? && c.value.nodeType != META then c else None)
  {
    hide RefreshBatch, IsDiff, LastChange, Logged, Records;
    LastAfterRefresh(setup, journal, changes, k);
    LoggedIs(LastChange(journal, k), current, prior, changes, k);
    MetaStays(setup, current, prior, changes, k);
  }

  /**
   What a rerun on tree `second` must find at k, after a crashed run on tree `first` logged a change there:
   the leaf still drifts, and one that was added keeps the hash it was logged with.
   */
  predicate Recovers(first: Leaves, second: Leaves, prior: Leaves, k: string) {
    var logged := ChangeAt(first, prior, k);
    logged.Some? && logged.value.nodeType != META ==>
      ChangeAt(second, prior, k).Some? && (k !in prior ==> second[k].hash == first[k].hash)
  }

  lemma RerunAt(setup: Setup, journal: seq<Event>, first: Leaves, drift: seq<LeafChange>,
                second: Leaves, redrift: seq<LeafChange>, prior: Leaves, k: string)
    requires Passes(setup, first, prior, drift) && Passes(setup, second, prior, redrift)
    requires AgreesAt(LastChange(journal, k), prior, k)
    ensures var crashed := journal + RefreshBatch(setup, journal, drift);
            AgreesAt(LastChange(crashed + RefreshBatch(setup, crashed, redrift), k), second, k) <==> Recovers(first, second, prior, k)
  {
    hide RefreshBatch, IsDiff, LastChange, Logged;
    var crashed := journal + RefreshBatch(setup, journal, drift);
    FirstRunLogs(setup, journal, first, prior, drift, k);
    LastAfterRefresh(setup, crashed, redrift, k);
    LoggedIs(LastChange(crashed, k), second, prior, redrift, k);
    MetaStays(setup, first, prior, drift, k);
    MetaStays(setup, second, prior, redrift, k);
  }

  /**
   Crash recovery.  The skips are there so that a rerun heals a partial run; it does exactly when every change
   the crashed run logged is still drift, and no node added by it has changed again: an added leaf is skipped
   on the kind of its latest event alone, whatever its hash.
   */
  lemma RerunHealsExactly(setup: Setup, journal: seq<Event>, first: Leaves, drift: seq<LeafChange>,
                          second: Leaves, redrift: seq<LeafChange>, prior: Leaves)
    requires Passes(setup, first, prior, drift) && Passes(setup, second, prior, redrift)
    requires Agreement(journal, prior)
    ensures var crashed := journal + RefreshBatch(setup, journal, drift);
            Agreement(crashed + RefreshBatch(setup, crashed, redrift), second) <==> forall k :: Recovers(first, second, prior, k)
  {
    hide RefreshBatch, IsDiff, LastChange, Recovers, AgreesAt;
    var crashed := journal + RefreshBatch(setup, journal, drift);
    var after := crashed + RefreshBatch(setup, crashed, redrift);
    forall k
      ensures AgreesAt(LastChange(after, k), second, k) <==> Recovers(first, second, prior, k)
    {
      assert AgreesAt(LastChange(journal, k), prior, k);
      RerunAt(setup, journal, first, drift, second, redrift, prior, k);
    }
    if Agreement(after, second) {
      forall k
        ensures Recovers(first, second, prior, k)
      {
        assert AgreesAt(LastChange(after, k), second, k);
      }
    }
  }

  lemma OneAdded(setup: Setup, key: string, leaf: LeafInfo)
    requires IsAbsorbable(leaf.nodeType, LeafAdded, setup.absorbable)
    ensures Passes(setup, map[key := leaf], map[], [LeafChange(key, LeafAdded, leaf.nodeType, leaf.mod, "", leaf.hash)])
  {
    var c := LeafChange(key, LeafAdded, leaf.nodeType, leaf.mod, "", leaf.hash);
    assert [c][..0] == [];
  }

  /** The failing family is not empty: a leaf added before the crash and edited after it keeps its first hash in the log. */
  lemma RerunMayMiss(setup: Setup, key: string, nodeType: string)
    requires IsAbsorbable(nodeType, LeafAdded, setup.absorbable)
    ensures var drift := [LeafChange(key, LeafAdded, nodeType, "", "", "1")];
            var redrift := [LeafChange(key, LeafAdded, nodeType, "", "", "2")];
            var second: Leaves := map[key := LeafInfo("2", nodeType, "")];
            var journal := [Registered("e", "p", "")];
            var crashed := journal + RefreshBatch(setup, journal, drift);
            && Passes(setup, second, map[], redrift)
            && !Agreement(crashed + RefreshBatch(setup, crashed, redrift), second)
  {
    hide RefreshBatch, IsDiff, Agreement;
    var prior: Leaves := map[];
    var first: Leaves := map[key := LeafInfo("1", nodeType, "")];
    var second: Leaves := map[key := LeafInfo("2", nodeType, "")];
    OneAdded(setup, key, LeafInfo("1", nodeType, ""));
    OneAdded(setup, key, LeafInfo("2", nodeType, ""));
    var journal := [Registered("e", "p", "")];
    NothingChanged(journal, prior);
    RerunHealsExactly(setup, journal, first, [LeafChange(key, LeafAdded, nodeType, "", "", "1")],
                      second, [LeafChange(key, LeafAdded, nodeType, "", "", "2")], prior);
    assert !Recovers(first, second, prior, key);
  }

  lemma NothingChanged(journal: seq<Event>, leaves: Leaves)
    requires |journal| == 1 && !journal[0].Change?
    ensures Agreement(journal, leaves)
  {
    assert journal[..0] == [];
    forall k
      ensures LastChange(journal, k) == None
    {
      assert LastChange(journal[..0], k) == None;
    }
  }

  /** On the same tree a rerun logs nothing more: it closes with a receipt that absorbs nothing. */
  lemma RerunSameTree(setup: Setup, journal: seq<Event>, tree: Leaves, drift: seq<LeafChange>, prior: Leaves)
    requires Passes(setup, tree, prior, drift) && Agreement(journal, prior)
    ensures var crashed := journal + RefreshBatch(setup, journal, drift);
            && RefreshBatch(setup, crashed, drift) == [Event.Refresh(setup.gitHead, [])]
            && Agreement(crashed + RefreshBatch(setup, crashed, drift), tree)
  {
    var crashed := journal + RefreshBatch(setup, journal, drift);
    forall c | c in drift
      ensures Skips(LastChange(crashed, c.key), c)
    {
      hide RefreshBatch, LastChange;
      assert AgreesAt(LastChange(journal, c.key), prior, c.key);
      FirstRunLogs(setup, journal, tree, prior, drift, c.key);
      MetaStays(setup, tree, prior, drift, c.key);
      assert ChangeAt(tree, prior, c.key) == Some(c);
    }
    AllSkipped(setup, crashed, drift);
    RerunHealsExactly(setup, journal, tree, drift, tree, drift, prior);
    forall k
      ensures Recovers(tree, tree, prior, k)
    {
    }
  }

  lemma {:induction false} AllSkipped(setup: Setup, journal: seq<Event>, changes: seq<LeafChange>)
    requires forall c :: c in changes ==> Skips(LastChange(journal, c.key), c)
    ensures DriftEvents(setup, journal, changes) == []
  {
    hide Skips, LastChange;
    if changes != [] {
      assert changes[|changes| - 1] in changes;
      AllSkipped(setup, journal, changes[..|changes| - 1]);
    }
  }

  // ---- what a batch brings to the journal ----

  ghost predicate Absorbs(journal: seq<Event>, events: seq<Event>) {
    FreshEids(journal, events) && forall e :: e in events ==> e.Change?
  }

  lemma {:induction false} DriftFresh(setup: Setup, journal: seq<Event>, changes: seq<LeafChange>)
    ensures Absorbs(journal, DriftEvents(setup, journal, changes))
  {
    if changes != [] {
      var init, c := changes[..|changes| - 1], changes[|changes| - 1];
      DriftFresh(setup, journal, init);
      var before := DriftEvents(setup, journal, init);
      var last := LastChange(journal, c.key);
      if !Skips(last, c) {
        var eid := FreshEid(EidSet(journal) + EidSet(before), BaseEid(c));
        var e := DriftEvent(setup, Biography(FoldOf(journal).entries, last, c.key), c, eid);
        FreshEidNonEmpty(EidSet(journal) + EidSet(before), c);
        AbsorbsNext(journal, before, e);
      }
    }
  }

  lemma FreshEidNonEmpty(seen: set<string>, c: LeafChange)
    ensures FreshEid(seen, BaseEid(c)) != "" && FreshEid(seen, BaseEid(c))[0] == 'r'
  {
    FreeExistsFact(seen, BaseEid(c));
    var n :| FirstFree(seen, BaseEid(c), n) && FreshEid(seen, BaseEid(c)) == Candidate(BaseEid(c), n);
    BaseNonEmpty(c);
    CandidateNonEmpty(BaseEid(c), n);
  }

  lemma AbsorbsNext(journal: seq<Event>, before: seq<Event>, e: Event)
    requires Absorbs(journal, before) && e.Change? && e.eid != "" && e.eid !in EidSet(journal) + EidSet(before)
    ensures Absorbs(journal, before + [e])
  {
    forall f | f in journal + before && Named(f)
      ensures f.eid != e.eid
    {
      if f in before {
      } else {
        assert f in journal;
      }
    }
    var s := before + [e];
    forall i, j | 0 <= i < j < |s| && Named(s[i]) && Named(s[j])
      ensures s[i].eid != s[j].eid
    {
      assert s[i] in journal + before;
    }
  }

  lemma RefreshFresh(setup: Setup, journal: seq<Event>, changes: seq<LeafChange>)
    ensures FreshEids(journal, RefreshBatch(setup, journal, changes))
    ensures forall e :: e in RefreshBatch(setup, journal, changes) ==> e.Change? || e.Refresh?
  {
    DriftFresh(setup, journal, changes);
  }

  lemma {:induction false} EidsInMember(lines: seq<Event>, a: string)
    requires a in EidsIn(lines)
    ensures exists e :: e in lines && EidOf(e) == a
  {
    var init, e := lines[..|lines| - 1], lines[|lines| - 1];
    assert EidsIn(lines) == EidsIn(init) + [EidOf(e)];
    if a in EidsIn(init) {
      EidsInMember(init, a);
      var f :| f in init && EidOf(f) == a;
      assert f in lines;
    } else {
      assert e in lines;
    }
  }

  /** A refresh keeps the journal sound, and its receipt names only events it logged itself. */
  lemma RefreshSound(setup: Setup, journal: seq<Event>, changes: seq<LeafChange>)
    requires Sound(journal)
    ensures Sound(journal + RefreshBatch(setup, journal, changes))
    ensures Answered(journal, RefreshBatch(setup, journal, changes))
  {
    var events := DriftEvents(setup, journal, changes);
    var batch := RefreshBatch(setup, journal, changes);
    RefreshFresh(setup, journal, changes);
    DistinctConcat(journal, batch);
    forall e | e in journal + batch && e.Receipt? && e.referent.For?
      ensures Carried(journal + batch, e.referent.target)
    {
      assert e in journal;
      CarriedConcat(journal, batch, e.referent.target);
    }
    DriftFresh(setup, journal, changes);
    forall a | a in EidsIn(events)
      ensures a in EidSet(journal + batch)
    {
      EidsInMember(events, a);
      var e :| e in events && EidOf(e) == a;
      assert e in journal + batch && Named(e);
    }
  }
}
