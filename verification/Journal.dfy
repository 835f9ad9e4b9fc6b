/**
 The task journal and its fold.

 The journal is a sequence of events in file order; the line of an event is its
 position.  The fold walks it once and keeps, per node or proposal, the entry the
 latest task-bearing receipt or removal left.
 */
module Journal {
  import opened Results
  import opened Order

  datatype ChangeKind = Added | Modified | Removed
  datatype ReceiptKind = TaskCreated | TaskClosed | TaskRetargeted

  /** What a receipt answers: an event, or (legacy lines only) a proposal by its slug. */
  datatype Referent = For(target: string) | Slug(proposal: string)

  datatype Event =
    | Change(change: ChangeKind, eid: string, node: string, name: string, nodeType: string, mod: string,
             before: Option<string>, after: Option<string>, gitHead: string, proposal: string, path: string)
    | Registered(eid: string, proposal: string, gitHead: string)
    | Receipt(receipt: ReceiptKind, task: string, referent: Referent)
    | Refresh(gitHead: string, absorbed: seq<string>)

  predicate Named(e: Event) {
    e.Change? || e.Registered?
  }

  /** The eid a line carries, empty when it carries none. */
  function EidOf(e: Event): string {
    if Named(e) then e.eid else ""
  }

  predicate IsRemoval(e: Event) {
    e.Change? && e.change == Removed
  }

  predicate TaskBearing(e: Event) {
    e.Receipt? && (e.receipt == TaskCreated || e.receipt == TaskRetargeted)
  }

  /** `line` is where `source` stands in the journal. */
  datatype FoldEntry = FoldEntry(key: string, task: string, removed: bool, source: Event, line: nat)

  datatype Fold = Fold(entries: seq<FoldEntry>, dangling: seq<Event>)

  /** The last line carrying each eid. */
  function Index(events: seq<Event>): (m: map<string, nat>)
    ensures forall x :: x in m ==> m[x] < |events| && Named(events[m[x]]) && events[m[x]].eid == x
  {
    if events == [] then
      map[]
    else
      var n := |events| - 1;
      var m := Index(events[..n]);
      if Named(events[n]) then m[events[n].eid := n] else m
  }

  ghost predicate Indexed(events: seq<Event>, index: map<string, nat>) {
    forall x :: x in index ==> index[x] < |events| && Named(events[index[x]])
  }

  /** The entry that the event on line i would leave behind, if any. */
  function Bearing(events: seq<Event>, index: map<string, nat>, i: nat): (r: Option<FoldEntry>)
    requires i < |events| && Indexed(events, index)
  {
    var e := events[i];
    if IsRemoval(e) then
      Some(FoldEntry(e.node, "", true, e, i))
    else if TaskBearing(e) then
      match e.referent
      case Slug(p) => Some(FoldEntry(p, e.task, false, e, i))
      case For(t) =>
        if t !in index then
          None
        else
          var source := events[index[t]];
          if source.Registered? then
            Some(FoldEntry(source.proposal, e.task, false, source, index[t]))
          else
            Some(FoldEntry(source.node, e.task, IsRemoval(source), source, index[t]))
    else
      None
  }

  /** A removal leaves in place the receipt already paired to it. */
  predicate Keeps(prior: Option<FoldEntry>, e: Event) {
    IsRemoval(e) && prior.Some? && EidOf(prior.value.source) == e.eid
  }

  /** The entry of key k after the first n lines. */
  function EntryAt(events: seq<Event>, index: map<string, nat>, k: string, n: nat): Option<FoldEntry>
    requires n <= |events| && Indexed(events, index)
  {
    if n == 0 then
      None
    else
      var prior := EntryAt(events, index, k, n - 1);
      var b := Bearing(events, index, n - 1);
      if b.Some? && b.value.key == k && !Keeps(prior, events[n - 1]) then b else prior
  }

  lemma IndexIndexed(events: seq<Event>)
    ensures Indexed(events, Index(events))
  {
  }

  /** The current linkage of key k. */
  function Linkage(events: seq<Event>, k: string): Option<FoldEntry> {
    IndexIndexed(events);
    EntryAt(events, Index(events), k, |events|)
  }

  /** The key an entry sourced from this event is filed under. */
  function SourceKey(e: Event): Option<string> {
    match e
    case Change(_, _, node, _, _, _, _, _, _, _, _) => Some(node)
    case Registered(_, p, _) => Some(p)
    case Receipt(_, _, Slug(p)) => Some(p)
    case _ => None
  }

  /** The entry that stands on line i: the linkage of the line's key, when it is sourced from that line. */
  function EntryOnLine(events: seq<Event>, i: nat): Option<FoldEntry>
    requires i < |events|
  {
    var k := SourceKey(events[i]);
    if k.None? then
      None
    else
      var e := Linkage(events, k.value);
      if e.Some? && e.value.line == i then e else None
  }

  function EntriesUpTo(events: seq<Event>, n: nat): seq<FoldEntry>
    requires n <= |events|
  {
    if n == 0 then
      []
    else
      EntriesUpTo(events, n - 1) +
      var e := EntryOnLine(events, n - 1);
      if e.Some? then [e.value] else []
  }

  /** A task-bearing receipt whose referent no line carries. */
  predicate Dangles(index: map<string, nat>, e: Event) {
    TaskBearing(e) && e.referent.For? && e.referent.target !in index
  }

  function DanglingUpTo(events: seq<Event>, index: map<string, nat>, n: nat): seq<Event>
    requires n <= |events|
  {
    if n == 0 then
      []
    else
      DanglingUpTo(events, index, n - 1) + if Dangles(index, events[n - 1]) then [events[n - 1]] else []
  }

  /** The outcome of folding a journal: entries in line order, and the receipts that answer nothing. */
  function FoldOf(events: seq<Event>): Fold {
    Fold(EntriesUpTo(events, |events|), DanglingUpTo(events, Index(events), |events|))
  }

  // ---- what an entry is sourced from ----

  ghost predicate Sourced(events: seq<Event>, k: string, e: FoldEntry) {
    e.key == k && e.line < |events| && e.source == events[e.line] && SourceKey(e.source) == Some(k)
  }

  lemma {:induction false} EntrySourced(events: seq<Event>, index: map<string, nat>, k: string, n: nat)
    requires n <= |events| && Indexed(events, index)
    ensures EntryAt(events, index, k, n).Some? ==> Sourced(events, k, EntryAt(events, index, k, n).value)
  {
    if n > 0 {
      EntrySourced(events, index, k, n - 1);
    }
  }

  lemma LinkageSourced(events: seq<Event>, k: string)
    ensures Linkage(events, k).Some? ==> Sourced(events, k, Linkage(events, k).value)
  {
    IndexIndexed(events);
    EntrySourced(events, Index(events), k, |events|);
  }

  // ---- the listing ----

  predicate LineLeq(a: FoldEntry, b: FoldEntry) {
    a.line <= b.line
  }

  ghost predicate ByLine(s: seq<FoldEntry>) {
    forall i, j :: 0 <= i < j < |s| ==> s[i].line < s[j].line
  }

  ghost predicate Lists(events: seq<Event>, s: seq<FoldEntry>, n: nat) {
    forall e :: e in s <==> e.line < n && Linkage(events, e.key) == Some(e)
  }

  lemma {:induction false} EntriesListed(events: seq<Event>, n: nat)
    requires n <= |events|
    ensures ByLine(EntriesUpTo(events, n)) && Lists(events, EntriesUpTo(events, n), n)
  {
    if n > 0 {
      EntriesListed(events, n - 1);
      var init, last := EntriesUpTo(events, n - 1), EntryOnLine(events, n - 1);
      forall e
        ensures e in EntriesUpTo(events, n) <==> e.line < n && Linkage(events, e.key) == Some(e)
      {
        LinkageSourced(events, e.key);
        if last.Some? {
          LinkageSourced(events, SourceKey(events[n - 1]).value);
        }
      }
    }
  }

  /** The listing holds each key's linkage, once, strictly by line. */
  lemma FoldListsLinkage(events: seq<Event>)
    ensures ByLine(FoldOf(events).entries)
    ensures forall e :: e in FoldOf(events).entries <==> Linkage(events, e.key) == Some(e)
  {
    EntriesListed(events, |events|);
    forall e: FoldEntry | Linkage(events, e.key) == Some(e)
      ensures e.line < |events|
    {
      LinkageSourced(events, e.key);
    }
  }

  // ---- the fold as the program runs it ----

  ghost predicate Tabulates(events: seq<Event>, index: map<string, nat>, n: nat, entries: map<string, FoldEntry>)
    requires n <= |events| && Indexed(events, index)
  {
    forall k {:trigger EntryAt(events, index, k, n)} ::
      EntryAt(events, index, k, n) == if k in entries then Some(entries[k]) else None
  }

  method BuildIndex(events: seq<Event>) returns (byEid: map<string, nat>)
    ensures byEid == Index(events)
  {
    byEid := map[];
    for i := 0 to |events|
      invariant byEid == Index(events[..i])
    {
      assert events[..i + 1][..i] == events[..i];
      if Named(events[i]) {
        byEid := byEid[events[i].eid := i];
      }
    }
    assert events[..|events|] == events;
  }

  lemma TabulateNext(events: seq<Event>, index: map<string, nat>, n: nat, entries: map<string, FoldEntry>)
    requires n < |events| && Indexed(events, index) && Tabulates(events, index, n, entries)
    ensures var b := Bearing(events, index, n);
            Tabulates(events, index, n + 1,
                      if b.None? || (b.value.key in entries && Keeps(Some(entries[b.value.key]), events[n])) then entries
                      else entries[b.value.key := b.value])
  {
    var b := Bearing(events, index, n);
    var after := if b.None? || (b.value.key in entries && Keeps(Some(entries[b.value.key]), events[n])) then entries
                 else entries[b.value.key := b.value];
    forall k {:trigger EntryAt(events, index, k, n + 1)}
      ensures EntryAt(events, index, k, n + 1) == if k in after then Some(after[k]) else None
    {
      assert EntryAt(events, index, k, n) == if k in entries then Some(entries[k]) else None;
    }
  }

  method Walk(events: seq<Event>, byEid: map<string, nat>)
    returns (entries: map<string, FoldEntry>, dangling: seq<Event>)
    requires Indexed(events, byEid)
    ensures Tabulates(events, byEid, |events|, entries)
    ensures dangling == DanglingUpTo(events, byEid, |events|)
  {
    entries, dangling := map[], [];
    for i := 0 to |events|
      invariant Tabulates(events, byEid, i, entries)
      invariant dangling == DanglingUpTo(events, byEid, i)
    {
      TabulateNext(events, byEid, i, entries);
      var ev := events[i];
      if IsRemoval(ev) {
        if !(ev.node in entries && EidOf(entries[ev.node].source) == ev.eid) {
          entries := entries[ev.node := FoldEntry(ev.node, "", true, ev, i)];
        }
      } else if TaskBearing(ev) {
        match ev.referent {
          case Slug(p) =>
            entries := entries[p := FoldEntry(p, ev.task, false, ev, i)];
          case For(t) =>
            if t !in byEid {
              dangling := dangling + [ev];
            } else {
              var line := byEid[t];
              var source := events[line];
              if source.Registered? {
                entries := entries[source.proposal := FoldEntry(source.proposal, ev.task, false, source, line)];
              } else {
                entries := entries[source.node := FoldEntry(source.node, ev.task, IsRemoval(source), source, line)];
              }
            }
        }
      }
    }
  }

  /** Collects the table in whatever order the map yields it. */
  method Collect(entries: map<string, FoldEntry>) returns (out: seq<FoldEntry>)
    requires forall k :: k in entries ==> entries[k].key == k
    ensures NoDuplicates(out) && forall e :: e in out <==> e.key in entries && entries[e.key] == e
  {
    out := [];
    var todo := entries.Keys;
    while todo != {}
      invariant todo <= entries.Keys && NoDuplicates(out)
      invariant forall e :: e in out <==> e.key in entries && e.key !in todo && entries[e.key] == e
    {
      var k :| k in todo;
      assert entries[k] !in out;
      out := out + [entries[k]];
      todo := todo - {k};
    }
  }

  lemma LineOrdering()
    ensures Ordering(LineLeq)
  {
  }

  /** A line sources at most one entry. */
  lemma OneLine(events: seq<Event>, x: FoldEntry, y: FoldEntry)
    requires Linkage(events, x.key) == Some(x) && Linkage(events, y.key) == Some(y) && x.line == y.line
    ensures x == y
  {
    hide Linkage;
    LinkageSourced(events, x.key);
    LinkageSourced(events, y.key);
  }

  lemma SortedByLine(events: seq<Event>, out: seq<FoldEntry>)
    requires NoDuplicates(out) && forall e :: e in out <==> Linkage(events, e.key) == Some(e)
    ensures SortBy(LineLeq, out) == FoldOf(events).entries
  {
    var listed := FoldOf(events).entries;
    FoldListsLinkage(events);
    LineOrdering();
    SortBySorted(LineLeq, out);
    assert NoDuplicates(listed);
    NoDuplicatesMultiset(out);
    NoDuplicatesMultiset(listed);
    assert (set e | e in out) == (set e | e in listed);
    var sorted := SortBy(LineLeq, out);
    assert multiset(sorted) == multiset(listed);
    forall x, y | x in sorted && y in sorted && LineLeq(x, y) && LineLeq(y, x)
      ensures x == y
    {
      assert x in multiset(sorted) && y in multiset(sorted);
      assert x in listed && y in listed;
      OneLine(events, x, y);
    }
    SortedUnique(LineLeq, sorted, listed);
  }

  method FoldJournal(events: seq<Event>) returns (f: Fold)
    ensures f == FoldOf(events)
  {
    var byEid := BuildIndex(events);
    IndexIndexed(events);
    var entries, dangling := Walk(events, byEid);
    forall k
      ensures Linkage(events, k) == if k in entries then Some(entries[k]) else None
    {
      assert EntryAt(events, byEid, k, |events|) == if k in entries then Some(entries[k]) else None;
    }
    forall k | k in entries
      ensures entries[k].key == k
    {
      LinkageSourced(events, k);
    }
    var out := Collect(entries);
    SortedByLine(events, out);
    f := Fold(SortBy(LineLeq, out), dangling);
  }
}
