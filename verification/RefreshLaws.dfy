/**
 What a refresh writes down: its refusals, and the events and the receipt of its batch, in
 terms of the journal, the drift, the profile and the live spec.
 */
module RefreshLaws {
  import opened Results
  import opened Order
  import Bags
  import opened Merkle
  import opened Journal
  import opened FoldSpec
  import opened JournalGrowth
  import opened EventBuilder
  import opened InvariantChecker
  import opened Refresh
  import IngestLaws
  import Reconciler
  import I = IngestRecords

  /** The profile lets leaves of the type come or go between cycles; it has no say over the frame's own. */
  predicate Absorbed(profile: map<string, AbsorbDirections>, nodeType: string, kind: ChangeType) {
    && nodeType !in ["meta", "module"] && nodeType in profile
    && (kind == LeafAdded || kind == LeafRemoved) && (kind == LeafAdded ==> profile[nodeType].added) && (kind == LeafRemoved ==> profile[nodeType].removed)
  }

  /** The keys of the leaves that came, or went, without leave, in diff order. */
  ghost predicate Unabsorbed(profile: map<string, AbsorbDirections>, changes: seq<LeafChange>, kind: ChangeType, keys: seq<string>) {
    exists taken: seq<nat> ::
      && (forall i, j :: 0 <= i < j < |taken| ==> taken[i] < taken[j])
      && (forall k: nat :: k in taken <==> k < |changes| && changes[k].kind == kind && !Absorbed(profile, changes[k].nodeType, kind))
      && |keys| == |taken| && forall i :: 0 <= i < |keys| ==> taken[i] < |changes| && keys[i] == changes[taken[i]].key
  }

  ghost predicate AllAbsorbed(profile: map<string, AbsorbDirections>, changes: seq<LeafChange>, kind: ChangeType) {
    forall c :: c in changes && c.kind == kind ==> Absorbed(profile, c.nodeType, kind)
  }

  /** Line i is the last change event of the node. */
  ghost predicate LastOf(journal: seq<Event>, node: string, i: int) {
    && 0 <= i < |journal| && journal[i].Change? && journal[i].node == node
    && forall j :: i < j < |journal| && journal[j].Change? ==> journal[j].node != node
  }

  /** The journal's last word on the node is this change already, or the leaf is an envelope, which has no events. */
  ghost predicate Told(journal: seq<Event>, c: LeafChange) {
    match c.kind
    case LeafAdded => exists i :: LastOf(journal, c.key, i) && journal[i].change == Added
    case LeafRemoved => exists i :: LastOf(journal, c.key, i) && journal[i].change == Removed
    case LeafModified =>
      c.nodeType == "meta" ||
      exists i :: LastOf(journal, c.key, i) && journal[i].change == Modified
        && (journal[i].before == Some(c.oldHash) || (journal[i].before == None && c.oldHash == ""))
        && (journal[i].after == Some(c.newHash) || (journal[i].after == None && c.newHash == ""))
  }

  /** The decimal writing of n. */
  ghost predicate Writes(n: nat, d: string) {
    && d != "" && (forall c :: c in d ==> '0' <= c <= '9') && (|d| > 1 ==> d[0] != '0') && DecimalValue(d) == n
  }

  /** The first of base, base#2, base#3, ... that no line carries. */
  ghost predicate FirstNew(known: seq<Event>, base: string, eid: string) {
    if !Carried(known, base) then eid == base
    else exists n, d :: n >= 2 && Writes(n, d) && eid == base + "#" + d && !Carried(known, eid)
                        && forall m, x :: 2 <= m < n && Writes(m, x) ==> Carried(known, base + "#" + x)
  }

  /** The name and path a change event gives: the live spec's, or for a leaf that went what the journal last said. */
  ghost predicate NamedAs(setup: Setup, journal: seq<Event>, c: LeafChange, name: string, path: string) {
    if c.kind != LeafRemoved then
      if c.key in setup.live then name == setup.live[c.key].name && path == setup.live[c.key].path else name == "" && path == ""
    else
      match Linkage(journal, c.key)
      case Some(entry) =>
        if entry.source.Change? then name == entry.source.name && path == entry.source.path else name == "" && path == ""
      case None =>
        if exists i :: LastOf(journal, c.key, i) then exists i :: LastOf(journal, c.key, i) && name == journal[i].name && path == journal[i].path
        else name == "" && path == ""
  }

  /** The event of one change, `known` being the lines before it. */
  ghost predicate EventSays(setup: Setup, journal: seq<Event>, known: seq<Event>, c: LeafChange, e: Event) {
    && e.Change? && e.node == c.key && e.nodeType == c.nodeType && e.mod == c.mod && e.gitHead == setup.gitHead && e.proposal == ""
    && NamedAs(setup, journal, c, e.name, e.path)
    && (match c.kind
        case LeafAdded => e.change == Added && e.before == None && e.after == Some(c.newHash)
                          && FirstNew(known, "refresh:" + c.key + "::" + c.newHash, e.eid)
        case LeafModified => e.change == Modified && e.before == Some(c.oldHash) && e.after == Some(c.newHash)
                             && FirstNew(known, "refresh:" + c.key + ":" + c.oldHash + ":" + c.newHash, e.eid)
        case LeafRemoved => e.change == Removed && e.before == Some(c.oldHash) && e.after == None
                            && FirstNew(known, "refresh:" + c.key + ":" + c.oldHash + ":", e.eid))
  }

  ghost predicate EventsSay(setup: Setup, journal: seq<Event>, changes: seq<LeafChange>, n: nat, taken: seq<nat>, events: seq<Event>) {
    && n <= |changes| && |events| == |taken| && (forall i, j :: 0 <= i < j < |taken| ==> taken[i] < taken[j])
    && (forall k: nat :: k in taken <==> k < n && !Told(journal, changes[k]))
    && (forall i :: 0 <= i < |taken| ==> taken[i] < n && EventSays(setup, journal, journal + events[..i], changes[taken[i]], events[i]))
  }

  /** One event per change the journal does not tell of, in diff order, and the receipt that names them all. */
  ghost predicate BatchSays(setup: Setup, journal: seq<Event>, changes: seq<LeafChange>, batch: seq<Event>) {
    exists taken: seq<nat> :: |batch| == |taken| + 1 && EventsSay(setup, journal, changes, |changes|, taken, batch[..|taken|])
      && batch[|taken|].Refresh? && batch[|taken|].gitHead == setup.gitHead && |batch[|taken|].absorbed| == |taken|
      && forall i :: 0 <= i < |taken| ==> batch[i].Change? && batch[|taken|].absorbed[i] == batch[i].eid
  }

  /** The whole answer of a refresh before its writes. */
  ghost predicate RefreshSays(setup: Setup, journal: seq<Event>, snapshot: Option<Node>, changes: seq<LeafChange>, r: Result<seq<Event>, Outcome>) {
    match r
    case Ok(batch) =>
      && journal != [] && snapshot.Some? && changes != []
      && AllAbsorbed(setup.absorbable, changes, LeafAdded) && AllAbsorbed(setup.absorbable, changes, LeafRemoved)
      && BatchSays(setup, journal, changes, batch) && !I.HasBadLine(setup.declared, batch)
    case Err(NoCompletedCycle) => journal == []
    case Err(SnapshotAbsent) => journal != [] && snapshot == None
    case Err(Unchanged) => journal != [] && snapshot.Some? && changes == []
    case Err(AddedRefused(keys)) => journal != [] && snapshot.Some? && keys != [] && Unabsorbed(setup.absorbable, changes, LeafAdded, keys)
    case Err(RemovedRefused(keys)) =>
      && journal != [] && snapshot.Some? && keys != []
      && AllAbsorbed(setup.absorbable, changes, LeafAdded) && Unabsorbed(setup.absorbable, changes, LeafRemoved, keys)
    case Err(BadBatch) =>
      && journal != [] && snapshot.Some? && changes != []
      && AllAbsorbed(setup.absorbable, changes, LeafAdded) && AllAbsorbed(setup.absorbable, changes, LeafRemoved)
      && exists batch :: BatchSays(setup, journal, changes, batch) && I.HasBadLine(setup.declared, batch)
    case Err(_) => false
  }

  // ---- the proofs ----

  lemma AbsorbedExactly(profile: map<string, AbsorbDirections>, nodeType: string, kind: ChangeType)
    ensures IsAbsorbable(nodeType, kind, profile) <==> Absorbed(profile, nodeType, kind)
  {
  }

  lemma {:induction false} RefusedExactly(profile: map<string, AbsorbDirections>, changes: seq<LeafChange>, kind: ChangeType, n: nat) returns (taken: seq<nat>)
    requires n <= |changes|
    ensures forall i, j :: 0 <= i < j < |taken| ==> taken[i] < taken[j]
    ensures forall k: nat :: k in taken <==> k < n && changes[k].kind == kind && !Absorbed(profile, changes[k].nodeType, kind)
    ensures |taken| == |RefusedKeys(changes[..n], kind, profile)|
    ensures forall i :: 0 <= i < |taken| ==> taken[i] < n && RefusedKeys(changes[..n], kind, profile)[i] == changes[taken[i]].key
  {
    hide Absorbed, IsAbsorbable, RefusedKeys;
    taken := [];
    RefusedStep(profile, changes, kind, n);
    if n > 0 {
      taken := RefusedExactly(profile, changes, kind, n - 1);
      AbsorbedExactly(profile, changes[n - 1].nodeType, kind);
      if changes[n - 1].kind == kind && !Absorbed(profile, changes[n - 1].nodeType, kind) {
        Bags.Appended(taken, n - 1);
        taken := taken + [n - 1];
      }
    }
  }

  lemma RefusedStep(profile: map<string, AbsorbDirections>, changes: seq<LeafChange>, kind: ChangeType, n: nat)
    requires n <= |changes|
    ensures RefusedKeys(changes[..n], kind, profile) ==
            if n == 0 then []
            else
              var c := changes[n - 1];
              RefusedKeys(changes[..n - 1], kind, profile) + if c.kind == kind && !IsAbsorbable(c.nodeType, kind, profile) then [c.key] else []
  {
    if n > 0 {
      assert changes[..n][..n - 1] == changes[..n - 1];
    }
  }

  lemma RefusedSays(profile: map<string, AbsorbDirections>, changes: seq<LeafChange>, kind: ChangeType)
    ensures Unabsorbed(profile, changes, kind, RefusedKeys(changes, kind, profile))
    ensures RefusedKeys(changes, kind, profile) == [] <==> AllAbsorbed(profile, changes, kind)
  {
    hide Absorbed, RefusedKeys;
    var taken := RefusedExactly(profile, changes, kind, |changes|);
    assert changes[..|changes|] == changes;
    NoneTaken(profile, changes, kind, taken);
  }

  lemma NoneTaken(profile: map<string, AbsorbDirections>, changes: seq<LeafChange>, kind: ChangeType, taken: seq<nat>)
    requires forall k: nat :: k in taken <==> k < |changes| && changes[k].kind == kind && !Absorbed(profile, changes[k].nodeType, kind)
    ensures taken == [] <==> AllAbsorbed(profile, changes, kind)
  {
    hide Absorbed;
    if c :| c in changes && c.kind == kind && !Absorbed(profile, c.nodeType, kind) {
      var k: nat :| k < |changes| && changes[k] == c;
      assert k in taken;
    }
    if taken != [] {
      assert taken[0] in taken;
      assert changes[taken[0]] in changes;
    }
  }

  lemma {:induction false} LastExactly(journal: seq<Event>, node: string)
    ensures match LastChange(journal, node)
            case Some(e) => e.Change? && exists i :: LastOf(journal, node, i) && journal[i] == e
            case None => forall i :: !LastOf(journal, node, i)
    ensures forall i, j :: LastOf(journal, node, i) && LastOf(journal, node, j) ==> i == j
  {
    if journal != [] {
      var n := |journal| - 1;
      LastExactly(journal[..n], node);
      if journal[n].Change? && journal[n].node == node {
        assert LastOf(journal, node, n);
      } else {
        forall i
          ensures LastOf(journal, node, i) <==> LastOf(journal[..n], node, i)
        {
        }
      }
    }
  }

  lemma ToldExactly(journal: seq<Event>, c: LeafChange)
    ensures Skips(LastChange(journal, c.key), c) <==> Told(journal, c)
  {
    hide LastOf, LastChange;
    LastExactly(journal, c.key);
  }

  lemma {:induction false} DecimalWrites(n: nat)
    ensures Writes(n, Decimal(n)) && (n > 0 ==> Decimal(n)[0] != '0')
  {
    DecimalReads(n);
    if n >= 10 {
      DecimalWrites(n / 10);
      var d := Decimal(n / 10);
      assert Decimal(n)[0] == d[0];
      forall c | c in Decimal(n)
        ensures '0' <= c <= '9'
      {
        assert c in d || c == Digit(n % 10);
      }
    }
  }

  /** There is one way to write a number. */
  lemma {:induction false} WrittenOnce(n: nat, d: string)
    requires Writes(n, d)
    ensures d == Decimal(n)
  {
    var init, last := d[..|d| - 1], d[|d| - 1];
    assert d == init + [last] && last in d;
    if init == [] {
      assert DecimalValue(init) == 0;
    } else {
      assert forall c :: c in init ==> c in d;
      NonNegative(init);
      Positive(init);
      WrittenOnce(DecimalValue(init), init);
      assert n / 10 == DecimalValue(init);
    }
  }

  lemma {:induction false} NonNegative(d: string)
    requires forall c :: c in d ==> '0' <= c <= '9'
    ensures DecimalValue(d) >= 0
  {
    if d != [] {
      var init := d[..|d| - 1];
      assert d[|d| - 1] in d && forall c :: c in init ==> c in d;
      NonNegative(init);
    }
  }

  lemma {:induction false} Positive(d: string)
    requires d != "" && (forall c :: c in d ==> '0' <= c <= '9') && d[0] != '0'
    ensures DecimalValue(d) > 0
  {
    assert d[0] in d && d[|d| - 1] in d;
    if |d| > 1 {
      var init := d[..|d| - 1];
      assert (forall c :: c in init ==> c in d) && init[0] == d[0];
      Positive(d[..|d| - 1]);
    } else {
      assert d[..0] == [];
      assert DecimalValue(d[..|d| - 1]) == 0;
    }
  }

  lemma FirstNewExactly(known: seq<Event>, base: string, n: nat)
    requires base != "" && FirstFree(EidSet(known), base, n)
    ensures FirstNew(known, base, Candidate(base, n))
  {
    hide EidSet, Carried, Decimal, Writes;
    forall x | x != ""
      ensures x in EidSet(known) <==> Carried(known, x)
    {
      I.KnownExactly(known, x);
    }
    CandidateNonEmpty(base, n);
    if n >= 2 {
      assert Candidate(base, 1) in EidSet(known);
      DecimalWrites(n);
      forall m, x | 2 <= m < n && Writes(m, x)
        ensures Carried(known, base + "#" + x)
      {
        WrittenOnce(m, x);
        assert Candidate(base, m) in EidSet(known);
      }
    }
  }

  lemma FreshSays(known: seq<Event>, base: string)
    requires base != ""
    ensures FirstNew(known, base, FreshEid(EidSet(known), base))
  {
    hide EidSet, FirstFree, FirstNew, Candidate;
    FreeExistsFact(EidSet(known), base);
    var n :| FirstFree(EidSet(known), base, n);
    FreshEidIs(EidSet(known), base, n);
    FirstNewExactly(known, base, n);
  }

  lemma NamedExactly(setup: Setup, journal: seq<Event>, c: LeafChange)
    ensures c.kind != LeafRemoved ==> NamedAs(setup, journal, c, LiveAt(setup, c.key).name, LiveAt(setup, c.key).path)
    ensures c.kind == LeafRemoved ==>
              var gone := Biography(FoldOf(journal).entries, LastChange(journal, c.key), c.key); NamedAs(setup, journal, c, gone.name, gone.path)
  {
    hide FoldOf, Linkage, LastOf, LastChange;
    IngestLaws.KeyLookup(journal, c.key);
    LastExactly(journal, c.key);
  }

  lemma BaseExactly(c: LeafChange)
    ensures BaseEid(c) == match c.kind
                          case LeafAdded => "refresh:" + c.key + "::" + c.newHash
                          case LeafModified => "refresh:" + c.key + ":" + c.oldHash + ":" + c.newHash
                          case LeafRemoved => "refresh:" + c.key + ":" + c.oldHash + ":"
  {
    assert "refresh:" + c.key + ":" + "" + ":" + c.newHash == "refresh:" + c.key + "::" + c.newHash;
  }

  lemma EventSaysSo(setup: Setup, journal: seq<Event>, before: seq<Event>, c: LeafChange)
    ensures var gone := Biography(FoldOf(journal).entries, LastChange(journal, c.key), c.key);
            EventSays(setup, journal, journal + before, c, DriftEvent(setup, gone, c, FreshEid(EidSet(journal) + EidSet(before), BaseEid(c))))
  {
    hide EidSet, FoldOf, Biography, NamedAs, FirstNew, LastChange, FreshEid, BaseEid;
    NamedExactly(setup, journal, c);
    Reconciler.EidSetConcat(journal, before);
    BaseNonEmpty(c);
    BaseExactly(c);
    FreshSays(journal + before, BaseEid(c));
  }

  lemma {:induction false} EventsSaySo(setup: Setup, journal: seq<Event>, changes: seq<LeafChange>, n: nat) returns (taken: seq<nat>)
    requires n <= |changes|
    ensures EventsSay(setup, journal, changes, n, taken, DriftEvents(setup, journal, changes[..n]))
  {
    hide Told, Skips, LastChange, EventSays, EventsSay, DriftEvent, EidSet, FoldOf, Biography, FreshEid;
    if n == 0 {
      taken := [];
      NoEvents(setup, journal, changes);
    } else {
      taken := EventsSaySo(setup, journal, changes, n - 1);
      var before, c := DriftEvents(setup, journal, changes[..n - 1]), changes[n - 1];
      assert changes[..n][..n - 1] == changes[..n - 1];
      ToldExactly(journal, c);
      if Told(journal, c) {
        EventTold(setup, journal, changes, n - 1, taken, before);
      } else {
        EventSaysSo(setup, journal, before, c);
        var events := DriftEvents(setup, journal, changes[..n]);
        assert events == before + [events[|before|]];
        EventNext(setup, journal, changes, n - 1, taken, before, events[|before|]);
        taken := taken + [n - 1];
      }
    }
  }

  lemma NoEvents(setup: Setup, journal: seq<Event>, changes: seq<LeafChange>)
    ensures EventsSay(setup, journal, changes, 0, [], [])
  {
  }

  lemma EventTold(setup: Setup, journal: seq<Event>, changes: seq<LeafChange>, n: nat, taken: seq<nat>, events: seq<Event>)
    requires n < |changes| && EventsSay(setup, journal, changes, n, taken, events) && Told(journal, changes[n])
    ensures EventsSay(setup, journal, changes, n + 1, taken, events)
  {
    hide Told, EventSays;
  }

  lemma EventNext(setup: Setup, journal: seq<Event>, changes: seq<LeafChange>, n: nat, taken: seq<nat>, before: seq<Event>, e: Event)
    requires n < |changes| && EventsSay(setup, journal, changes, n, taken, before)
    requires !Told(journal, changes[n]) && EventSays(setup, journal, journal + before, changes[n], e)
    ensures EventsSay(setup, journal, changes, n + 1, taken + [n], before + [e])
  {
    hide Told, EventSays;
    var all, events := taken + [n], before + [e];
    Bags.Appended(taken, n);
    forall i | 0 <= i < |all|
      ensures all[i] < n + 1 && EventSays(setup, journal, journal + events[..i], changes[all[i]], events[i])
    {
      assert events[..i] == before[..i];
      assert i == |before| ==> before[..i] == before;
    }
  }

  lemma BatchSaysSo(setup: Setup, journal: seq<Event>, changes: seq<LeafChange>)
    ensures BatchSays(setup, journal, changes, RefreshBatch(setup, journal, changes))
  {
    hide DriftEvents, EventSays, Told, EidsIn;
    var taken := EventsSaySo(setup, journal, changes, |changes|);
    assert changes[..|changes|] == changes;
    var events, batch := DriftEvents(setup, journal, changes), RefreshBatch(setup, journal, changes);
    assert batch[..|taken|] == events;
    EidsInEach(events);
    forall i | 0 <= i < |taken|
      ensures batch[i].Change? && batch[|taken|].absorbed[i] == batch[i].eid
    {
      assert EventSays(setup, journal, journal + events[..i], changes[taken[i]], events[i]);
      SaidChange(setup, journal, journal + events[..i], changes[taken[i]], events[i]);
    }
  }

  lemma SaidChange(setup: Setup, journal: seq<Event>, known: seq<Event>, c: LeafChange, e: Event)
    requires EventSays(setup, journal, known, c, e)
    ensures e.Change?
  {
  }

  lemma {:induction false} EidsInEach(events: seq<Event>)
    ensures |EidsIn(events)| == |events| && forall i :: 0 <= i < |events| ==> EidsIn(events)[i] == EidOf(events[i])
  {
    if events != [] {
      EidsInEach(events[..|events| - 1]);
    }
  }

  /** Every answer of a refresh says what it should. */
  lemma RefreshSaysSo(setup: Setup, journal: seq<Event>, snapshot: Option<Node>, tree: Node, changes: seq<LeafChange>)
    ensures RefreshSays(setup, journal, snapshot, changes, Prepared(setup, journal, snapshot, tree, changes))
  {
    hide RefusedKeys, AllAbsorbed, Unabsorbed, RefreshBatch, BatchSays, LineValid, I.HasBadLine;
    RefusedSays(setup.absorbable, changes, LeafAdded);
    RefusedSays(setup.absorbable, changes, LeafRemoved);
    BatchSaysSo(setup, journal, changes);
    var batch := RefreshBatch(setup, journal, changes);
    I.BadLineExactly(setup.declared, batch);
  }
}
