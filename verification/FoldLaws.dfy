/**
 What the fold answers, said of the lines alone: which line speaks for which key, and
 which of the lines that speak for a key is the one that counts.
 */
module FoldLaws {
  import opened Results
  import opened Journal
  import opened FoldSpec

  /** Line i carries the eid. */
  ghost predicate Carries(events: seq<Event>, i: int, eid: string) {
    0 <= i < |events| && match events[i]
    case Change(_, x, _, _, _, _, _, _, _, _, _) => x == eid
    case Registered(x, _, _) => x == eid
    case _ => false
  }

  /** Line j links key k as `e` has it: a removal untasks its node, a receipt for an event tasks that event's node or
      proposal, and an old receipt for a slug tasks the proposal itself. */
  ghost predicate Links(events: seq<Event>, j: int, k: string, e: FoldEntry) {
    0 <= j < |events| && e.key == k && e.line < |events| && e.source == events[e.line] && match events[j]
    case Change(change, _, node, _, _, _, _, _, _, _, _) => change == Removed && node == k && e.line == j && e.task == "" && e.removed
    case Receipt(kind, task, Slug(p)) => kind != TaskClosed && p == k && e.line == j && e.task == task && !e.removed
    case Receipt(kind, task, For(eid)) =>
      && kind != TaskClosed && Carries(events, e.line, eid) && e.task == task
      && (match events[e.line]
          case Change(change, _, node, _, _, _, _, _, _, _, _) => node == k && (e.removed <==> change == Removed)
          case Registered(_, p, _) => p == k && !e.removed
          case _ => false)
    case _ => false
  }

  ghost predicate Speaks(events: seq<Event>, j: int, k: string) {
    exists e :: Links(events, j, k, e)
  }

  /** Line j is the last before n to speak for k. */
  ghost predicate Latest(events: seq<Event>, k: string, j: int, n: nat) {
    j < n && Speaks(events, j, k) && forall i :: j < i < n ==> !Speaks(events, i, k)
  }

  /** Line j is a removal, and the line that last spoke for its node before it, line i, is a receipt for that removal. */
  ghost predicate GivesWay(events: seq<Event>, k: string, j: int, i: int) {
    && 0 <= j < |events| && events[j].Change? && events[j].change == Removed && Latest(events, k, i, j)
    && 0 <= i && events[i].Receipt? && events[i].referent == For(events[j].eid)
  }

  /** What k is linked to. */
  ghost predicate Linked(events: seq<Event>, k: string, e: FoldEntry) {
    exists j :: Latest(events, k, j, |events|) &&
      ((exists i :: GivesWay(events, k, j, i) && Links(events, i, k, e)) || ((forall i :: !GivesWay(events, k, j, i)) && Links(events, j, k, e)))
  }

  lemma LinksExactly(events: seq<Event>, j: nat, k: string, e: FoldEntry)
    requires DistinctEids(events) && j < |events|
    ensures Links(events, j, k, e) <==> Bearing(events, Index(events), j) == Some(e) && e.key == k
  {
    hide Index, DistinctEids;
    var index := Index(events);
    if TaskBearing(events[j]) && events[j].referent.For? {
      ReferentExactly(events, events[j].referent.target);
    }
  }

  /** An eid leads to the one line that carries it. */
  lemma ReferentExactly(events: seq<Event>, eid: string)
    requires DistinctEids(events)
    ensures forall i :: Carries(events, i, eid) <==> eid in Index(events) && i == Index(events)[eid]
  {
    IndexComplete(events);
    forall i | Carries(events, i, eid)
      ensures eid in Index(events) && i == Index(events)[eid]
    {
      IndexFinds(events, i);
    }
  }

  lemma SpeaksExactly(events: seq<Event>, j: nat, k: string)
    requires DistinctEids(events) && j < |events|
    ensures Speaks(events, j, k) <==> FoldSpec.Bears(events, Index(events), j, k)
  {
    hide Links, Bearing;
    var b := Bearing(events, Index(events), j);
    if b.Some? {
      LinksExactly(events, j, b.value.key, b.value);
    }
    if e :| Links(events, j, k, e) {
      LinksExactly(events, j, k, e);
    }
  }

  lemma LatestExactly(events: seq<Event>, k: string, j: int, n: nat)
    requires DistinctEids(events) && n <= |events|
    ensures Latest(events, k, j, n) <==> j >= 0 && LastBearing(events, Index(events), k, n) == Some(j)
  {
    hide Speaks, FoldSpec.Bears, LastBearing;
    forall i | 0 <= i < n
      ensures Speaks(events, i, k) <==> FoldSpec.Bears(events, Index(events), i, k)
    {
      SpeaksExactly(events, i, k);
    }
    if Latest(events, k, j, n) {
      NoneSpeaks(events, j, k);
    }
  }

  lemma NoneSpeaks(events: seq<Event>, j: int, k: string)
    requires Speaks(events, j, k)
    ensures 0 <= j < |events|
  {
  }

  lemma GivesWayExactly(events: seq<Event>, k: string, j: nat, i: int)
    requires DistinctEids(events) && j < |events| && IsRemoval(events[j])
    ensures GivesWay(events, k, j, i) <==>
            var before := LastBearing(events, Index(events), k, j);
            i >= 0 && before == Some(i) && ReceiptFor(events[i], events[j].eid)
  {
    hide Latest, LastBearing, DistinctEids;
    LatestExactly(events, k, i, j);
    if GivesWay(events, k, j, i) {
      assert FoldSpec.Bears(events, Index(events), i, k);
    }
  }

  /** The fold's linkage is what the lines say. */
  lemma LinkageExactly(events: seq<Event>, k: string, e: FoldEntry)
    requires DistinctEids(events)
    ensures Linkage(events, k) == Some(e) <==> Linked(events, k, e)
  {
    hide Linkage, LastBearing, Bearing, DistinctEids, Links, Latest, GivesWay;
    LinkageIsLatestWins(events, k);
    var last := LastBearing(events, Index(events), k, |events|);
    forall j
      ensures Latest(events, k, j, |events|) <==> j >= 0 && last == Some(j)
    {
      LatestExactly(events, k, j, |events|);
    }
    if last.Some? {
      LastLinked(events, k, e, last.value);
    }
  }

  lemma LastLinked(events: seq<Event>, k: string, e: FoldEntry, j: nat)
    requires DistinctEids(events) && LastBearing(events, Index(events), k, |events|) == Some(j)
    requires Latest(events, k, j, |events|)
    requires forall x :: Latest(events, k, x, |events|) ==> x == j
    ensures LatestWins(events, k, |events|) == Some(e) <==> Linked(events, k, e)
  {
    hide LastBearing, Bearing, DistinctEids, Links, Latest, GivesWay;
    LinksExactly(events, j, k, e);
    if IsRemoval(events[j]) {
      var before := LastBearing(events, Index(events), k, j);
      forall i
        ensures GivesWay(events, k, j, i) <==> i >= 0 && before == Some(i) && ReceiptFor(events[i], events[j].eid)
      {
        GivesWayExactly(events, k, j, i);
      }
      if before.Some? {
        LinksExactly(events, before.value, k, e);
      }
    } else {
      forall i
        ensures !GivesWay(events, k, j, i)
      {
        if GivesWay(events, k, j, i) {
          OnlyRemovals(events, k, j, i);
        }
      }
    }
  }

  lemma OnlyRemovals(events: seq<Event>, k: string, j: int, i: int)
    requires GivesWay(events, k, j, i)
    ensures 0 <= j < |events| && IsRemoval(events[j])
  {
  }

  /** The listing of a fold: every key that is linked, once, by the line its entry stands on. */
  lemma FoldSays(events: seq<Event>, e: FoldEntry)
    requires DistinctEids(events)
    ensures e in FoldOf(events).entries <==> Linked(events, e.key, e)
    ensures forall i, j :: 0 <= i < j < |FoldOf(events).entries| ==> FoldOf(events).entries[i].line < FoldOf(events).entries[j].line
  {
    hide Linked, Linkage, FoldOf, DistinctEids;
    FoldListsLinkage(events);
    LinkageExactly(events, e.key, e);
  }
}
