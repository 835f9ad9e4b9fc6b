/**
 What the planner sees of the journal and of the diff: its tables in terms of the linkage of
 each key, the matchable pairings, the registration, and what absorb marks withhold.
 */
module ViewLaws {
  import opened Results
  import opened Order
  import opened Bags
  import opened PlanTypes
  import opened Merkle
  import opened Journal
  import opened InvariantChecker
  import opened Reconciler
  import opened IngestLaws
  import opened Resolver
  import opened Matcher
  import PlanIngest
  import I = IngestRecords

  // ---- the tables ----

  ghost predicate Buried(e: FoldEntry) {
    e.source.Change? && e.source.change == Removed
  }

  /** The pairing of an entry: its key and task, the task's live status, and what its event says of the node. */
  ghost predicate PairingSays(status: map<string, string>, e: FoldEntry, p: Pairing) {
    && p.node == e.key && p.task == e.task && p.status == (if e.task in status then status[e.task] else "")
    && match e.source
       case Change(_, _, _, name, nodeType, mod, _, after, _, _, _) =>
         p.name == name && p.nodeType == nodeType && p.mod == mod && p.after == (match after case Some(h) => h case None => "")
       case _ => p.name == "" && p.nodeType == "" && p.mod == "" && p.after == ""
  }

  lemma PairingSaysSo(status: map<string, string>, e: FoldEntry)
    ensures PairingSays(status, e, PlanIngest.PairingFrom(e, status))
  {
  }

  /** The planner's tables: a live linkage is looked up with its task and status, a buried one by the eid that buried it. */
  lemma ViewSaysSo(journal: seq<Event>, status: map<string, string>, k: string)
    ensures var v := PlanIngest.FoldView(FoldOf(journal).entries, status);
            match Linkage(journal, k)
            case None => k !in v.lookup && k !in v.removal
            case Some(e) =>
              if Buried(e) then k !in v.lookup && k in v.removal && v.removal[k] == e.source.eid
              else k !in v.removal && k in v.lookup && PairingSays(status, e, v.lookup[k])
  {
    hide Linkage, FoldOf, PlanIngest.FoldView, PlanIngest.PairingFrom, PairingSays;
    PlanIngest.ViewIsLinkage(journal, status, k);
    I.RemovedEntry(journal, k);
    LinkageSourced(journal, k);
    if Linkage(journal, k).Some? {
      PairingSaysSo(status, Linkage(journal, k).value);
    }
  }

  // ---- what matching sees ----

  /** Where the elements stand that f keeps. */
  lemma {:induction false} KeptAt<T, U>(f: T -> seq<U>, s: seq<T>) returns (taken: seq<nat>)
    requires forall x :: |f(x)| <= 1
    ensures |taken| == |FlatMap(f, s)| && forall i, j :: 0 <= i < j < |taken| ==> taken[i] < taken[j]
    ensures forall k: nat :: k in taken <==> k < |s| && f(s[k]) != []
    ensures forall i :: 0 <= i < |taken| ==> taken[i] < |s| && f(s[taken[i]]) == [FlatMap(f, s)[i]]
  {
    taken := KeptUpTo(f, s, |s|);
    assert s[..|s|] == s;
  }

  lemma {:induction false} KeptUpTo<T, U>(f: T -> seq<U>, s: seq<T>, n: nat) returns (taken: seq<nat>)
    requires n <= |s| && forall x :: |f(x)| <= 1
    ensures |taken| == |FlatMap(f, s[..n])| && forall i, j :: 0 <= i < j < |taken| ==> taken[i] < taken[j]
    ensures forall k: nat :: k in taken <==> k < n && f(s[k]) != []
    ensures forall i :: 0 <= i < |taken| ==> taken[i] < n && f(s[taken[i]]) == [FlatMap(f, s[..n])[i]]
  {
    taken := [];
    if n > 0 {
      var init := KeptUpTo(f, s, n - 1);
      FlatMapNext(f, s, n - 1);
      taken := init;
      if f(s[n - 1]) != [] {
        Appended(init, n - 1);
        taken := init + [n - 1];
      }
    }
  }

  ghost predicate MatchesSay(journal: seq<Event>, status: map<string, string>, pairings: seq<Pairing>) {
    exists kept: seq<FoldEntry> ::
      && (forall i, j :: 0 <= i < j < |kept| ==> kept[i].line < kept[j].line)
      && (forall e :: e in kept <==> Linkage(journal, e.key) == Some(e) && e.source.Change? && e.source.change != Removed && e.source.node != "")
      && |kept| == |pairings| && forall i :: 0 <= i < |kept| ==> PairingSays(status, kept[i], pairings[i])
  }

  /** Matching sees the linkages of nodes that are not buried, in journal order. */
  lemma MatchesSaySo(journal: seq<Event>, status: map<string, string>)
    ensures MatchesSay(journal, status, FlatMap(PlanIngest.Matchable(status), FoldOf(journal).entries))
  {
    hide Linkage, FoldOf, PairingSays, FlatMap, PlanIngest.Matchable, ByLine, KeptFor;
    var entries, f := FoldOf(journal).entries, PlanIngest.Matchable(status);
    FoldListsLinkage(journal);
    MatchableSays(status);
    var kept := KeptEntries(entries, f);
    forall e
      ensures e in kept <==> Linkage(journal, e.key) == Some(e) && e.source.Change? && e.source.change != Removed && e.source.node != ""
    {
      KeptLinked(journal, entries, e);
    }
    PairedEach(status, kept, f, FlatMap(f, entries));
  }

  /** The entries that f keeps. */
  lemma KeptEntries(entries: seq<FoldEntry>, f: FoldEntry -> seq<Pairing>) returns (kept: seq<FoldEntry>)
    requires ByLine(entries) && forall e :: |f(e)| <= 1
    ensures |kept| == |FlatMap(f, entries)| && forall i, j :: 0 <= i < j < |kept| ==> kept[i].line < kept[j].line
    ensures forall e :: e in kept <==> e in entries && f(e) != []
    ensures forall i :: 0 <= i < |kept| ==> f(kept[i]) == [FlatMap(f, entries)[i]]
  {
    hide FlatMap, ByLine;
    var taken := KeptAt(f, entries);
    kept := seq(|taken|, i requires 0 <= i < |taken| => entries[taken[i]]);
    KeptInOrder(entries, taken, kept);
    forall e
      ensures e in kept <==> e in entries && f(e) != []
    {
      KeptIs(entries, taken, kept, f, e);
    }
  }

  lemma KeptLinked(journal: seq<Event>, entries: seq<FoldEntry>, e: FoldEntry)
    requires e in entries <==> Linkage(journal, e.key) == Some(e)
    ensures e in entries && KeptFor(e) <==> Linkage(journal, e.key) == Some(e) && e.source.Change? && e.source.change != Removed && e.source.node != ""
  {
    hide Linkage;
    I.RemovedEntry(journal, e.key);
  }

  lemma PairedEach(status: map<string, string>, kept: seq<FoldEntry>, f: FoldEntry -> seq<Pairing>, pairings: seq<Pairing>)
    requires |kept| == |pairings| && forall i :: 0 <= i < |kept| ==> f(kept[i]) == [pairings[i]]
    requires forall e :: f(e) == if KeptFor(e) then [PlanIngest.PairingFrom(e, status)] else []
    ensures forall i :: 0 <= i < |kept| ==> PairingSays(status, kept[i], pairings[i])
  {
    hide PairingSays, KeptFor, PlanIngest.PairingFrom;
    forall i | 0 <= i < |kept|
      ensures PairingSays(status, kept[i], pairings[i])
    {
      assert f(kept[i]) == [pairings[i]];
      PairingSaysSo(status, kept[i]);
    }
  }

  ghost predicate KeptFor(e: FoldEntry) {
    !e.removed && e.source.Change? && e.source.node != ""
  }

  lemma MatchableSays(status: map<string, string>)
    ensures forall e :: PlanIngest.Matchable(status)(e) == if KeptFor(e) then [PlanIngest.PairingFrom(e, status)] else []
  {
  }

  lemma KeptInOrder(entries: seq<FoldEntry>, taken: seq<nat>, kept: seq<FoldEntry>)
    requires ByLine(entries) && forall i, j :: 0 <= i < j < |taken| ==> taken[i] < taken[j]
    requires |kept| == |taken| && forall i :: 0 <= i < |kept| ==> taken[i] < |entries| && kept[i] == entries[taken[i]]
    ensures forall i, j :: 0 <= i < j < |kept| ==> kept[i].line < kept[j].line
  {
  }

  lemma KeptIs(entries: seq<FoldEntry>, taken: seq<nat>, kept: seq<FoldEntry>, f: FoldEntry -> seq<Pairing>, e: FoldEntry)
    requires forall k: nat :: k in taken <==> k < |entries| && f(entries[k]) != []
    requires |kept| == |taken| && forall i :: 0 <= i < |kept| ==> taken[i] < |entries| && kept[i] == entries[taken[i]]
    ensures e in kept <==> e in entries && f(e) != []
  {
    if e in entries && f(e) != [] {
      var k: nat :| k < |entries| && entries[k] == e;
      assert k in taken;
      var i :| 0 <= i < |taken| && taken[i] == k;
      assert kept[i] == e;
    }
    if e in kept {
      var i :| 0 <= i < |kept| && kept[i] == e;
      assert taken[i] in taken;
    }
  }

  /** The registration a plan runs under is the proposal's last in the journal; none leaves it empty. */
  lemma RegistrationSays(journal: seq<Event>, p: string)
    ensures var eid := PlanIngest.Registration(journal, p);
            I.Registration(journal, p, eid) || (eid == "" && forall x :: !I.Registration(journal, p, x))
  {
    hide RegisteredBy;
    forall x
      ensures p in RegisteredBy(journal) && RegisteredBy(journal)[p] == x <==> I.Registration(journal, p, x)
    {
      I.RegisteredByExactly(journal, p, x);
    }
  }

  // ---- absorb marks ----

  /** The last change of the node in the diff. */
  ghost predicate LastChange(changes: seq<NodeChange>, node: string, c: NodeChange) {
    exists i :: 0 <= i < |changes| && changes[i] == c && c.key == node && forall j :: i < j < |changes| ==> changes[j].key != node
  }

  ghost predicate Absorbable(changes: seq<NodeChange>, node: string) {
    exists c :: LastChange(changes, node, c) && c.kind == LeafModified
  }

  ghost predicate MarkFails(changes: seq<NodeChange>, m: PlanIngest.AbsorbMark, e: PlanIngest.AbsorbError) {
    if !I.NodeId(m.node) then e == PlanIngest.NotANodeId(m.node) else !Absorbable(changes, m.node) && e == PlanIngest.NotModified(m.node)
  }

  /** The first mark that names no node, or no modified one, refuses the run; otherwise each mark gives an entry with its
      change's hashes, and the changes of marked nodes are held back. */
  ghost predicate AbsorbSays(marks: seq<PlanIngest.AbsorbMark>, changes: seq<NodeChange>, r: Result<PlanIngest.Withheld, PlanIngest.AbsorbError>) {
    match r
    case Err(e) =>
      exists k :: 0 <= k < |marks| && MarkFails(changes, marks[k], e)
                  && forall j :: 0 <= j < k ==> I.NodeId(marks[j].node) && Absorbable(changes, marks[j].node)
    case Ok(w) =>
      && |w.absorbed| == |marks|
      && (forall k :: 0 <= k < |marks| ==>
            && I.NodeId(marks[k].node) && w.absorbed[k].node == marks[k].node && w.absorbed[k].reason == marks[k].reason
            && exists c :: LastChange(changes, marks[k].node, c) && c.kind == LeafModified && w.absorbed[k].before == c.oldHash && w.absorbed[k].after == c.newHash)
      && exists taken: seq<nat> ::
           && (forall i, j :: 0 <= i < j < |taken| ==> taken[i] < taken[j])
           && (forall k: nat :: k in taken <==> k < |changes| && forall m :: m in marks ==> m.node != changes[k].key)
           && |w.remaining| == |taken| && forall i :: 0 <= i < |taken| ==> taken[i] < |changes| && w.remaining[i] == changes[taken[i]]
  }

  lemma {:induction false} LastChangeExactly(changes: seq<NodeChange>, node: string, c: NodeChange)
    ensures PlanIngest.ChangeOf(changes, node) == Some(c) <==> LastChange(changes, node, c)
  {
    if changes != [] {
      var n := |changes| - 1;
      LastChangeExactly(changes[..n], node, c);
      if changes[n].key == node {
        assert LastChange(changes, node, changes[n]);
      } else if LastChange(changes[..n], node, c) {
        var i :| 0 <= i < n && changes[..n][i] == c && c.key == node && forall j :: i < j < n ==> changes[..n][j].key != node;
        assert changes[i] == c && forall j :: i < j < |changes| ==> changes[j].key != node;
      }
      if LastChange(changes, node, c) {
        var i :| 0 <= i < |changes| && changes[i] == c && c.key == node && forall j :: i < j < |changes| ==> changes[j].key != node;
        assert i < n ==> changes[..n][i] == c && forall j :: i < j < n ==> changes[..n][j].key != node;
      }
    }
  }

  lemma MarkSays(changes: seq<NodeChange>, m: PlanIngest.AbsorbMark)
    ensures match PlanIngest.MarkError(changes, m)
            case Some(e) => MarkFails(changes, m, e)
            case None =>
              && I.NodeId(m.node) && Absorbable(changes, m.node)
              && var entry := PlanIngest.AbsorbedBy(changes, m);
                 && entry.node == m.node && entry.reason == m.reason
                 && exists c :: LastChange(changes, m.node, c) && c.kind == LeafModified && entry.before == c.oldHash && entry.after == c.newHash
  {
    hide LastChange, PlanIngest.ChangeOf;
    forall c
      ensures PlanIngest.ChangeOf(changes, m.node) == Some(c) <==> LastChange(changes, m.node, c)
    {
      LastChangeExactly(changes, m.node, c);
    }
    I.NodeIdExactly(m.node);
  }

  lemma RemainingSays(marks: seq<PlanIngest.AbsorbMark>, changes: seq<NodeChange>) returns (taken: seq<nat>)
    ensures var remaining := FlatMap(PlanIngest.Unmarked(PlanIngest.MarkedNodes(marks)), changes);
            && (forall i, j :: 0 <= i < j < |taken| ==> taken[i] < taken[j])
            && (forall k: nat :: k in taken <==> k < |changes| && forall m :: m in marks ==> m.node != changes[k].key)
            && |remaining| == |taken| && forall i :: 0 <= i < |taken| ==> taken[i] < |changes| && remaining[i] == changes[taken[i]]
  {
    hide FlatMap;
    var f := PlanIngest.Unmarked(PlanIngest.MarkedNodes(marks));
    taken := KeptAt(f, changes);
    forall k: nat | k < |changes|
      ensures f(changes[k]) != [] <==> forall m :: m in marks ==> m.node != changes[k].key
    {
    }
  }

  /** Every outcome of the absorb step says what it should. */
  lemma AbsorbSaysSo(marks: seq<PlanIngest.AbsorbMark>, changes: seq<NodeChange>, r: Result<PlanIngest.Withheld, PlanIngest.AbsorbError>)
    requires PlanIngest.AbsorbOutcome(marks, changes, r)
    ensures AbsorbSays(marks, changes, r)
  {
    hide FlatMap, I.NodeId, LastChange, Absorbable, PlanIngest.MarkError, PlanIngest.AbsorbedBy, MarkFails;
    forall k | 0 <= k < |marks|
      ensures match PlanIngest.MarkError(changes, marks[k])
              case Some(e) => MarkFails(changes, marks[k], e)
              case None => I.NodeId(marks[k].node) && Absorbable(changes, marks[k].node)
    {
      MarkSays(changes, marks[k]);
    }
    if r.Ok? {
      forall k | 0 <= k < |marks|
        ensures && I.NodeId(marks[k].node) && r.value.absorbed[k].node == marks[k].node && r.value.absorbed[k].reason == marks[k].reason
                && exists c :: LastChange(changes, marks[k].node, c) && c.kind == LeafModified
                               && r.value.absorbed[k].before == c.oldHash && r.value.absorbed[k].after == c.newHash
      {
        assert marks[k] in marks;
        MarkSays(changes, marks[k]);
      }
      var taken := RemainingSays(marks, changes);
    }
  }

  // ---- matches ----

  /** The plan looks at the change, and its node is in the spec. */
  ghost predicate Lives(c: NodeChange) {
    !c.structural && c.kind != LeafRemoved
  }

  ghost predicate HasPairing(pairings: seq<Pairing>, node: string) {
    exists p :: p in pairings && p.node == node
  }

  /** A match holds a change and all pairings of its node, by task. */
  ghost predicate MatchSays(pairings: seq<Pairing>, c: NodeChange, m: Match) {
    && m.change == c && (forall i, j :: 0 <= i < j < |m.records| ==> TaskLeq(m.records[i], m.records[j]))
    && forall p :: multiset(m.records)[p] == if p.node == c.key then multiset(pairings)[p] else 0
  }

  lemma {:induction false} RecordsCount(pairings: seq<Pairing>, node: string, p: Pairing)
    ensures multiset(Records(pairings, node))[p] == if p.node == node then multiset(pairings)[p] else 0
  {
    if pairings != [] {
      var n := |pairings| - 1;
      RecordsCount(pairings[..n], node, p);
      assert pairings == pairings[..n] + [pairings[n]];
    }
  }

  lemma RecordsSay(pairings: seq<Pairing>, node: string)
    ensures Records(pairings, node) != [] <==> HasPairing(pairings, node)
  {
    var records := Records(pairings, node);
    if records != [] {
      RecordsCount(pairings, node, records[0]);
      assert records[0] in multiset(records);
      assert records[0] in multiset(pairings);
    }
    if p :| p in pairings && p.node == node {
      RecordsCount(pairings, node, p);
      assert p in multiset(pairings);
      assert p in multiset(records);
    }
  }

  lemma MatchSaysSo(pairings: seq<Pairing>, c: NodeChange)
    requires Lives(c) && HasPairing(pairings, c.key)
    ensures |MatchOf(pairings)(c)| == 1 && MatchSays(pairings, c, MatchOf(pairings)(c)[0])
  {
    hide Records;
    RecordsSay(pairings, c.key);
    TaskOrdering();
    SortBySorted(TaskLeq, Records(pairings, c.key));
    forall p
      ensures multiset(Records(pairings, c.key))[p] == if p.node == c.key then multiset(pairings)[p] else 0
    {
      RecordsCount(pairings, c.key, p);
    }
  }

  /** In diff order: a match for every living change whose node is paired, and the living changes whose nodes are not. */
  lemma CorrelationSays(changes: seq<NodeChange>, pairings: seq<Pairing>, r: Correlated) returns (matched: seq<nat>, unmatched: seq<nat>)
    requires IsCorrelation(changes, pairings, r)
    ensures |matched| == |r.matches| && (forall i, j :: 0 <= i < j < |matched| ==> matched[i] < matched[j])
    ensures forall k: nat :: k in matched <==> k < |changes| && Lives(changes[k]) && HasPairing(pairings, changes[k].key)
    ensures forall i :: 0 <= i < |matched| ==> matched[i] < |changes| && MatchSays(pairings, changes[matched[i]], r.matches[i])
    ensures |unmatched| == |r.unmatched| && (forall i, j :: 0 <= i < j < |unmatched| ==> unmatched[i] < unmatched[j])
    ensures forall k: nat :: k in unmatched <==> k < |changes| && Lives(changes[k]) && !HasPairing(pairings, changes[k].key)
    ensures forall i :: 0 <= i < |unmatched| ==> unmatched[i] < |changes| && r.unmatched[i] == changes[unmatched[i]]
  {
    hide FlatMap, HasPairing, MatchSays, IsOrphanList, MatchOf, UnmatchedOf;
    forall c
      ensures MatchOf(pairings)(c) != [] <==> Lives(c) && HasPairing(pairings, c.key)
      ensures UnmatchedOf(pairings)(c) == if Lives(c) && !HasPairing(pairings, c.key) then [c] else []
      ensures |MatchOf(pairings)(c)| <= 1
    {
      MatchesOne(pairings, c);
    }
    matched := KeptAt(MatchOf(pairings), changes);
    unmatched := KeptAt(UnmatchedOf(pairings), changes);
    forall i | 0 <= i < |matched|
      ensures MatchSays(pairings, changes[matched[i]], r.matches[i])
    {
      assert matched[i] in matched;
      MatchSaysSo(pairings, changes[matched[i]]);
    }
    forall i | 0 <= i < |unmatched|
      ensures r.unmatched[i] == changes[unmatched[i]]
    {
      assert UnmatchedOf(pairings)(changes[unmatched[i]]) == [r.unmatched[i]];
    }
  }

  lemma MatchesOne(pairings: seq<Pairing>, c: NodeChange)
    ensures MatchOf(pairings)(c) != [] <==> Lives(c) && HasPairing(pairings, c.key)
    ensures UnmatchedOf(pairings)(c) == if Lives(c) && !HasPairing(pairings, c.key) then [c] else []
    ensures |MatchOf(pairings)(c)| <= 1
  {
    hide HasPairing, Records;
    RecordsSay(pairings, c.key);
  }
}
