/**
 How the linkage of each key moves when lines are appended: a receipt with its
 event, a receipt for an older event, or lines the fold passes over.
 */
module JournalGrowth {
  import opened Results
  import opened Journal
  import opened FoldSpec

  ghost predicate NoDangling(events: seq<Event>) {
    forall e :: e in events && e.Receipt? && e.referent.For? ==> Carried(events, e.referent.target)
  }

  /** A journal whose eids are distinct and whose receipts all answer something. */
  ghost predicate Sound(events: seq<Event>) {
    DistinctEids(events) && NoDangling(events)
  }

  /** Appended lines carry new, distinct, non-empty eids. */
  ghost predicate FreshEids(events: seq<Event>, more: seq<Event>) {
    && DistinctEids(more)
    && (forall e :: e in more && Named(e) ==> !Carried(events, e.eid))
  }

  lemma CarriedConcat(a: seq<Event>, b: seq<Event>, t: string)
    ensures Carried(a + b, t) <==> Carried(a, t) || Carried(b, t)
  {
    if Carried(a, t) {
      var e :| e in a && Named(e) && e.eid == t;
      assert e in a + b;
    }
    if Carried(b, t) {
      var e :| e in b && Named(e) && e.eid == t;
      assert e in a + b;
    }
  }

  lemma DistinctConcat(a: seq<Event>, b: seq<Event>)
    requires DistinctEids(a) && FreshEids(a, b)
    ensures DistinctEids(a + b)
  {
    var s := a + b;
    forall i, j | 0 <= i < j < |s| && Named(s[i]) && Named(s[j])
      ensures s[i].eid != s[j].eid
    {
      if i < |a| && j >= |a| {
        assert s[j] in b && s[i] in a;
        assert Carried(a, s[i].eid) && !Carried(a, s[j].eid);
      } else if i >= |a| {
        assert s[i] == b[i - |a|] && s[j] == b[j - |a|];
      }
    }
  }

  /** Eids of the old lines still lead to the same lines. */
  lemma IndexStable(a: seq<Event>, b: seq<Event>, t: string)
    requires (forall e :: e in b && Named(e) ==> !Carried(a, e.eid)) && Carried(a, t)
    ensures t in Index(a + b) && t in Index(a) && Index(a + b)[t] == Index(a)[t]
    decreases |b|
  {
    IndexComplete(a);
    if b == [] {
      assert a + b == a;
    } else {
      var init := b[..|b| - 1];
      assert b == init + [b[|b| - 1]];
      assert (a + b)[..|a + b| - 1] == a + init;
      IndexStable(a, init, t);
    }
  }

  lemma EntryNext(s: seq<Event>, index: map<string, nat>, k: string, n: nat)
    requires n < |s| && Indexed(s, index)
    ensures EntryAt(s, index, k, n + 1) ==
            var b := Bearing(s, index, n);
            if b.Some? && b.value.key == k && !Keeps(EntryAt(s, index, k, n), s[n]) then b else EntryAt(s, index, k, n)
  {
    hide Bearing, Keeps;
  }

  /** An old line bears the same after new lines are appended. */
  lemma BearingStable(a: seq<Event>, b: seq<Event>, n: nat)
    requires NoDangling(a) && (forall e :: e in b && Named(e) ==> !Carried(a, e.eid)) && n < |a|
    ensures Bearing(a + b, Index(a + b), n) == Bearing(a, Index(a), n)
  {
    hide Index;
    var e := a[n];
    assert e in a && (a + b)[n] == e;
    if TaskBearing(e) && e.referent.For? {
      IndexStable(a, b, e.referent.target);
    }
  }

  /** Below the appended lines nothing changes. */
  lemma {:induction false} EntryStable(a: seq<Event>, b: seq<Event>, k: string, n: nat)
    requires NoDangling(a) && (forall e :: e in b && Named(e) ==> !Carried(a, e.eid)) && n <= |a|
    ensures EntryAt(a + b, Index(a + b), k, n) == EntryAt(a, Index(a), k, n)
  {
    hide Index, Bearing, NoDangling, Carried;
    if n > 0 {
      hide EntryAt;
      EntryStable(a, b, k, n - 1);
      EntryNext(a, Index(a), k, n - 1);
      EntryNext(a + b, Index(a + b), k, n - 1);
      BearingStable(a, b, n - 1);
      assert (a + b)[n - 1] == a[n - 1];
    }
  }

  ghost predicate PassedOver(e: Event) {
    (e.Change? && e.change != Removed) || e.Refresh? || e.Registered? || (e.Receipt? && e.receipt == TaskClosed)
  }

  lemma {:induction false} PassOver(events: seq<Event>, k: string, from: nat, n: nat)
    requires from <= n <= |events|
    requires forall i :: from <= i < n ==> PassedOver(events[i])
    ensures EntryAt(events, Index(events), k, n) == EntryAt(events, Index(events), k, from)
  {
    if n > from {
      PassOver(events, k, from, n - 1);
    }
  }

  /** Lines the fold passes over leave every linkage as it was. */
  lemma AppendSilent(a: seq<Event>, b: seq<Event>, k: string)
    requires Sound(a) && (forall e :: e in b ==> PassedOver(e))
    requires forall e :: e in b && Named(e) ==> !Carried(a, e.eid)
    ensures Linkage(a + b, k) == Linkage(a, k)
  {
    EntryStable(a, b, k, |a|);
    forall i | |a| <= i < |a + b|
      ensures PassedOver((a + b)[i])
    {
      assert (a + b)[i] in b;
    }
    PassOver(a + b, k, |a|, |a + b|);
  }

  /** What a task-bearing receipt bears, its event being found on line i. */
  lemma ReceiptBears(s: seq<Event>, index: map<string, nat>, n: nat, i: nat)
    requires n < |s| && i < |s| && Indexed(s, index) && TaskBearing(s[n]) && Named(s[i])
    requires s[n].referent == For(s[i].eid) && s[i].eid in index && index[s[i].eid] == i
    ensures var key := if s[i].Registered? then s[i].proposal else s[i].node;
            Bearing(s, index, n) == Some(FoldEntry(key, s[n].task, IsRemoval(s[i]), s[i], i))
  {
  }

  /** An entry of a journal is not sourced from an event whose eid the journal does not carry. */
  lemma NotKept(a: seq<Event>, k: string, prior: Option<FoldEntry>, change: Event)
    requires prior == Linkage(a, k) && change.Change? && !Carried(a, change.eid) && change.eid != ""
    ensures !Keeps(prior, change)
  {
    LinkageSourced(a, k);
    hide Linkage;
    if prior.Some? && Named(prior.value.source) {
      assert prior.value.source in a;
      assert Carried(a, prior.value.source.eid);
    }
  }

  /** An event and the receipt for it: the event's node moves, every other key stays. */
  lemma AppendPair(a: seq<Event>, change: Event, receipt: Event, k: string)
    requires Sound(a) && change.Change? && !Carried(a, change.eid) && change.eid != ""
    requires receipt.Receipt? && receipt.referent == For(change.eid)
    ensures Sound(a + [change, receipt])
    ensures Linkage(a + [change, receipt], k) ==
            if k != change.node then Linkage(a, k)
            else if TaskBearing(receipt) then Some(FoldEntry(k, receipt.task, IsRemoval(change), change, |a|))
            else if IsRemoval(change) then Some(FoldEntry(k, "", true, change, |a|))
            else Linkage(a, k)
  {
    var s := a + [change, receipt];
    var index := Index(s);
    DistinctConcat(a, [change, receipt]);
    SoundPair(a, change, receipt);
    EntryStable(a, [change, receipt], k, |a|);
    IndexFinds(s, |a|);
    NotKept(a, k, Linkage(a, k), change);
    hide Sound, Carried, DistinctEids, NoDangling, Index, EntryAt;
    assert s[|a|] == change && s[|a| + 1] == receipt;
    EntryNext(s, index, k, |a|);
    EntryNext(s, index, k, |a| + 1);
    if TaskBearing(receipt) {
      ReceiptBears(s, index, |a| + 1, |a|);
    }
  }

  lemma SoundPair(a: seq<Event>, change: Event, receipt: Event)
    requires Sound(a) && change.Change? && !Carried(a, change.eid) && change.eid != ""
    requires receipt.Receipt? && receipt.referent == For(change.eid)
    ensures Sound(a + [change, receipt])
  {
    var b := [change, receipt];
    DistinctConcat(a, b);
    forall e | e in a + b && e.Receipt? && e.referent.For?
      ensures Carried(a + b, e.referent.target)
    {
      CarriedConcat(a, b, e.referent.target);
      assert change in b;
    }
  }

  /** A receipt for an event already in the journal moves that event's key. */
  lemma AppendReceipt(a: seq<Event>, receipt: Event, i: nat, k: string)
    requires Sound(a) && i < |a| && Named(a[i]) && TaskBearing(receipt) && receipt.referent == For(a[i].eid)
    ensures Sound(a + [receipt])
    ensures Linkage(a + [receipt], k) ==
            if SourceKey(a[i]) == Some(k) then Some(FoldEntry(k, receipt.task, IsRemoval(a[i]), a[i], i))
            else Linkage(a, k)
  {
    var s := a + [receipt];
    SoundReceipt(a, receipt, i);
    EntryStable(a, [receipt], k, |a|);
    IndexFinds(s, i);
    hide Sound, Carried, DistinctEids, NoDangling, Index, EntryAt, Bearing;
    assert s[i] == a[i] && s[|a|] == receipt;
    EntryNext(s, Index(s), k, |a|);
    ReceiptBears(s, Index(s), |a|, i);
  }

  lemma SoundReceipt(a: seq<Event>, receipt: Event, i: nat)
    requires Sound(a) && i < |a| && Named(a[i]) && receipt.Receipt? && receipt.referent == For(a[i].eid)
    ensures Sound(a + [receipt])
  {
    DistinctConcat(a, [receipt]);
    assert a[i] in a;
    forall e | e in a + [receipt] && e.Receipt? && e.referent.For?
      ensures Carried(a + [receipt], e.referent.target)
    {
      CarriedConcat(a, [receipt], e.referent.target);
    }
  }

  /** Every key keeps an entry once it has one. */
  lemma {:induction false} EntryStays(events: seq<Event>, index: map<string, nat>, k: string, m: nat, n: nat)
    requires m <= n <= |events| && Indexed(events, index) && EntryAt(events, index, k, m).Some?
    ensures EntryAt(events, index, k, n).Some?
  {
    if m < n {
      EntryStays(events, index, k, m, n - 1);
    }
  }
}
