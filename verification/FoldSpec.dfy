/**
 What the fold means, said without walking the journal: the latest receipt or
 removal that bears on a key decides, a removal giving way to its own receipt.
 */
module FoldSpec {
  import opened Results
  import opened Order
  import opened Journal

  /** No two lines share an eid, and eids are not empty. */
  ghost predicate DistinctEids(events: seq<Event>) {
    && (forall i :: 0 <= i < |events| && Named(events[i]) ==> events[i].eid != "")
    && (forall i, j :: 0 <= i < j < |events| && Named(events[i]) && Named(events[j]) ==> events[i].eid != events[j].eid)
  }

  ghost predicate Carried(events: seq<Event>, t: string) {
    exists e :: e in events && Named(e) && e.eid == t
  }

  lemma {:induction false} IndexComplete(events: seq<Event>)
    ensures forall t :: t in Index(events) <==> Carried(events, t)
  {
    if events != [] {
      var init, last := events[..|events| - 1], events[|events| - 1];
      assert events == init + [last];
      IndexComplete(init);
      forall t
        ensures t in Index(events) <==> Carried(events, t)
      {
        assert t in Index(init) <==> Carried(init, t);
      }
    }
  }

  /** With distinct eids, looking an eid up finds the line that carries it. */
  lemma IndexFinds(events: seq<Event>, i: nat)
    requires DistinctEids(events) && i < |events| && Named(events[i])
    ensures events[i].eid in Index(events) && Index(events)[events[i].eid] == i
  {
    IndexComplete(events);
    assert Carried(events, events[i].eid);
  }

  // ---- dangling receipts ----

  lemma {:induction false} DanglingMember(events: seq<Event>, index: map<string, nat>, n: nat, r: Event)
    requires n <= |events|
    ensures r in DanglingUpTo(events, index, n) <==> r in events[..n] && Dangles(index, r)
  {
    if n > 0 {
      DanglingMember(events, index, n - 1, r);
      assert events[..n] == events[..n - 1] + [events[n - 1]];
    }
  }

  /** The reported receipts are the ones that name an eid no line of the journal carries, wherever it stands. */
  lemma DanglingExactly(events: seq<Event>, r: Event)
    ensures r in FoldOf(events).dangling <==>
            r in events && TaskBearing(r) && r.referent.For? && !Carried(events, r.referent.target)
  {
    DanglingMember(events, Index(events), |events|, r);
    assert events[..|events|] == events;
    IndexComplete(events);
  }

  // ---- latest wins ----

  ghost predicate Bears(events: seq<Event>, index: map<string, nat>, i: nat, k: string)
    requires i < |events| && Indexed(events, index)
  {
    Bearing(events, index, i).Some? && Bearing(events, index, i).value.key == k
  }

  /** The last of the first n lines that bears on k. */
  ghost function LastBearing(events: seq<Event>, index: map<string, nat>, k: string, n: nat): (r: Option<nat>)
    requires n <= |events| && Indexed(events, index)
    ensures r.Some? ==> r.value < n && Bears(events, index, r.value, k)
    ensures forall i :: (if r.Some? then r.value + 1 else 0) <= i < n ==> !Bears(events, index, i, k)
  {
    if n == 0 then None
    else if Bears(events, index, n - 1, k) then Some(n - 1)
    else LastBearing(events, index, k, n - 1)
  }

  ghost predicate ReceiptFor(e: Event, eid: string) {
    TaskBearing(e) && e.referent == For(eid)
  }

  /** The declarative reading: the last bearing line decides, and a removal directly preceded, among the lines
      bearing on its key, by a receipt for it leaves that receipt's pairing. */
  ghost function LatestWins(events: seq<Event>, k: string, n: nat): Option<FoldEntry>
    requires n <= |events|
  {
    var index := Index(events);
    IndexIndexed(events);
    var last := LastBearing(events, index, k, n);
    if last.None? then
      None
    else if IsRemoval(events[last.value]) then
      var before := LastBearing(events, index, k, last.value);
      if before.Some? && ReceiptFor(events[before.value], events[last.value].eid) then
        Bearing(events, index, before.value)
      else
        Bearing(events, index, last.value)
    else
      Bearing(events, index, last.value)
  }

  /** An entry sourced from line i's event was written by line i or by a receipt for it. */
  lemma SourceLine(events: seq<Event>, j: nat, i: nat)
    requires DistinctEids(events) && j < |events| && i < |events| && Named(events[i])
    requires Bearing(events, Index(events), j).Some?
    ensures EidOf(Bearing(events, Index(events), j).value.source) == events[i].eid <==>
            (j == i && IsRemoval(events[j])) || ReceiptFor(events[j], events[i].eid)
  {
    IndexFinds(events, i);
  }

  /** Refinement: what the walk leaves for a key is what the declarative reading says. */
  lemma {:induction false} FoldIsLatestWins(events: seq<Event>, k: string, n: nat)
    requires DistinctEids(events) && n <= |events|
    ensures EntryAt(events, Index(events), k, n) == LatestWins(events, k, n)
  {
    var index := Index(events);
    if n > 0 {
      FoldIsLatestWins(events, k, n - 1);
      if Bears(events, index, n - 1, k) && IsRemoval(events[n - 1]) {
        var last := LastBearing(events, index, k, n - 1);
        if last.Some? {
          SourceLine(events, last.value, n - 1);
          if IsRemoval(events[last.value]) {
            var before := LastBearing(events, index, k, last.value);
            if before.Some? {
              SourceLine(events, before.value, n - 1);
            }
          }
        }
      }
    }
  }

  /** The current linkage of every key, read off declaratively. */
  lemma LinkageIsLatestWins(events: seq<Event>, k: string)
    requires DistinctEids(events)
    ensures Linkage(events, k) == LatestWins(events, k, |events|)
  {
    FoldIsLatestWins(events, k, |events|);
  }

  // ---- a cleanup receipt on either side of its removal ----

  /** An entry without its line. */
  datatype View = View(task: string, removed: bool, source: Event)

  function ViewOf(e: Option<FoldEntry>): Option<View> {
    if e.Some? then Some(View(e.value.task, e.value.removed, e.value.source)) else None
  }

  ghost function Refs(events: seq<Event>): (m: map<string, Event>)
    ensures forall t :: t in m <==> t in Index(events)
  {
    map t | t in Index(events) :: events[Index(events)[t]]
  }

  /** The key and view an event would leave behind, given what eids stand for. */
  function Effect(refs: map<string, Event>, e: Event): Option<(string, View)> {
    if IsRemoval(e) then
      Some((e.node, View("", true, e)))
    else if TaskBearing(e) then
      match e.referent
      case Slug(p) => Some((p, View(e.task, false, e)))
      case For(t) =>
        if t !in refs then
          None
        else
          match refs[t]
          case Registered(_, p, _) => Some((p, View(e.task, false, refs[t])))
          case Change(_, _, node, _, _, _, _, _, _, _, _) => Some((node, View(e.task, IsRemoval(refs[t]), refs[t])))
          case _ => None
    else
      None
  }

  function ViewStep(refs: map<string, Event>, k: string, e: Event, v: Option<View>): Option<View> {
    var effect := Effect(refs, e);
    if effect.Some? && effect.value.0 == k && !(IsRemoval(e) && v.Some? && EidOf(v.value.source) == e.eid) then
      Some(effect.value.1)
    else
      v
  }

  function ViewAfter(refs: map<string, Event>, k: string, events: seq<Event>, v: Option<View>): Option<View> {
    if events == [] then
      v
    else
      ViewStep(refs, k, events[|events| - 1], ViewAfter(refs, k, events[..|events| - 1], v))
  }

  lemma {:induction false} ViewAfterConcat(refs: map<string, Event>, k: string, a: seq<Event>, b: seq<Event>, v: Option<View>)
    ensures ViewAfter(refs, k, a + b, v) == ViewAfter(refs, k, b, ViewAfter(refs, k, a, v))
  {
    if b == [] {
      assert a + b == a;
    } else {
      assert (a + b)[..|a + b| - 1] == a + b[..|b| - 1];
      ViewAfterConcat(refs, k, a, b[..|b| - 1], v);
    }
  }

  lemma {:induction false} EntryViews(events: seq<Event>, k: string, n: nat)
    requires n <= |events|
    ensures ViewOf(EntryAt(events, Index(events), k, n)) == ViewAfter(Refs(events), k, events[..n], None)
  {
    if n > 0 {
      EntryViews(events, k, n - 1);
      assert events[..n][..n - 1] == events[..n - 1];
      EffectOfLine(events, n - 1);
    }
  }

  lemma EffectOfLine(events: seq<Event>, i: nat)
    requires i < |events|
    ensures var b := Bearing(events, Index(events), i);
            Effect(Refs(events), events[i]) == if b.Some? then Some((b.value.key, ViewOf(b).value)) else None
  {
  }

  lemma LinkageView(events: seq<Event>, k: string)
    ensures ViewOf(Linkage(events, k)) == ViewAfter(Refs(events), k, events, None)
  {
    EntryViews(events, k, |events|);
    assert events[..|events|] == events;
  }

  /** Rearranging lines with distinct eids does not change what the eids stand for. */
  lemma RefsPermute(a: seq<Event>, b: seq<Event>)
    requires DistinctEids(a) && DistinctEids(b) && multiset(a) == multiset(b)
    ensures Refs(a) == Refs(b)
  {
    assert forall e :: e in a <==> e in multiset(a);
    assert forall e :: e in b <==> e in multiset(b);
    IndexComplete(a);
    IndexComplete(b);
    forall t | t in Refs(a)
      ensures t in Refs(b) && Refs(a)[t] == Refs(b)[t]
    {
      var e := Refs(a)[t];
      assert e in b;
      var i :| 0 <= i < |b| && b[i] == e;
      IndexFinds(b, i);
    }
    forall t | t in Refs(b)
      ensures t in Refs(a)
    {
      assert Carried(b, t);
      assert Carried(a, t);
    }
  }

  /** The last of the lines that bear on a key. */
  function LastOn(refs: map<string, Event>, k: string, events: seq<Event>): Option<Event> {
    if events == [] then
      None
    else
      var last := events[|events| - 1];
      if Effect(refs, last).Some? && Effect(refs, last).value.0 == k then Some(last) else LastOn(refs, k, events[..|events| - 1])
  }

  lemma {:induction false} LastOnMember(refs: map<string, Event>, k: string, events: seq<Event>)
    ensures var e := LastOn(refs, k, events); e.Some? ==> e.value in events && Effect(refs, e.value).Some? && Effect(refs, e.value).value.0 == k
  {
    if events != [] {
      LastOnMember(refs, k, events[..|events| - 1]);
    }
  }

  lemma {:induction false} LastOnConcat(refs: map<string, Event>, k: string, a: seq<Event>, b: seq<Event>)
    ensures LastOn(refs, k, a + b) == if LastOn(refs, k, b).Some? then LastOn(refs, k, b) else LastOn(refs, k, a)
  {
    if b == [] {
      assert a + b == a;
    } else {
      assert (a + b)[..|a + b| - 1] == a + b[..|b| - 1];
      LastOnConcat(refs, k, a, b[..|b| - 1]);
    }
  }

  /** The last bearing line decides, up to what a removal keeps. */
  lemma {:induction false} LastDecides(refs: map<string, Event>, k: string, events: seq<Event>, v: Option<View>)
    ensures var e, after := LastOn(refs, k, events), ViewAfter(refs, k, events, v);
            if e.None? then after == v
            else if IsRemoval(e.value) then after.Some? && EidOf(after.value.source) == e.value.eid
            else Effect(refs, e.value).Some? && after == Some(Effect(refs, e.value).value.1)
  {
    if events != [] {
      LastDecides(refs, k, events[..|events| - 1], v);
    }
  }

  /** The key's view after the first n lines of a journal. */
  function ViewAt(events: seq<Event>, k: string, n: nat): Option<View>
    requires n <= |events|
  {
    IndexIndexed(events);
    ViewOf(EntryAt(events, Index(events), k, n))
  }

  /** Of the lines between the two places of a receipt, the removal aside, the last one bearing on the node is a
      receipt for that removal naming the same task. */
  ghost predicate Settled(refs: map<string, Event>, receipt: Event, removal: Event, between: seq<Event>)
    requires IsRemoval(removal) && receipt.Receipt?
  {
    var e := LastOn(refs, removal.node, between);
    e.Some? && ReceiptFor(e.value, removal.eid) && e.value.task == receipt.task
  }

  /** Eids stand for the lines that carry them. */
  ghost predicate Refers(refs: map<string, Event>, removal: Event) {
    && IsRemoval(removal) && removal.eid != "" && removal.eid in refs && refs[removal.eid] == removal
    && forall t :: t in refs ==> Named(refs[t]) && EidOf(refs[t]) == t
  }

  lemma JournalRefers(events: seq<Event>, i: nat)
    requires DistinctEids(events) && i < |events| && IsRemoval(events[i])
    ensures Refers(Refs(events), events[i])
  {
    IndexFinds(events, i);
  }

  /** A receipt leaves the removal's pairing with this task exactly when it is for that removal and names the task. */
  lemma ReceiptLeaves(refs: map<string, Event>, removal: Event, e: Event, task: string)
    requires Refers(refs, removal) && !IsRemoval(e) && Effect(refs, e).Some?
    ensures Effect(refs, e).value.1 == View(task, true, removal) <==> ReceiptFor(e, removal.eid) && e.task == task
    ensures EidOf(Effect(refs, e).value.1.source) == removal.eid <==> ReceiptFor(e, removal.eid)
  {
  }

  /** What the removal and the lines after it make of the view the early receipt and the lines before it left. */
  lemma EarlyView(refs: map<string, Event>, receipt: Event, m: seq<Event>, removal: Event, b: seq<Event>, v: Option<View>)
    requires Refers(refs, removal) && ReceiptFor(receipt, removal.eid) && receipt.task != ""
    requires forall e :: e in m + b && IsRemoval(e) ==> e.eid != removal.eid
    ensures var node := removal.node;
            Settled(refs, receipt, removal, [receipt] + m + b) <==>
            ViewAfter(refs, node, b, ViewStep(refs, node, removal, ViewAfter(refs, node, [receipt] + m, v))) == Some(View(receipt.task, true, removal))
  {
    var node, before := removal.node, [receipt] + m;
    LastOnConcat(refs, node, before, b);
    LastOnConcat(refs, node, [receipt], m);
    assert [receipt][..0] == [];
    assert LastOn(refs, node, [receipt]) == Some(receipt);
    LastOnMember(refs, node, b);
    LastOnMember(refs, node, before);
    LastDecides(refs, node, before, v);
    LastDecides(refs, node, b, ViewStep(refs, node, removal, ViewAfter(refs, node, before, v)));
    var last, last' := LastOn(refs, node, b), LastOn(refs, node, before);
    if last.Some? {
      if !IsRemoval(last.value) {
        ReceiptLeaves(refs, removal, last.value, receipt.task);
      }
    } else if !IsRemoval(last'.value) {
      ReceiptLeaves(refs, removal, last'.value, receipt.task);
    }
  }

  /** Both orders, up to the lines that follow them. */
  lemma EitherViews(refs: map<string, Event>, a: seq<Event>, receipt: Event, m: seq<Event>, removal: Event, b: seq<Event>, k: string)
    requires Refers(refs, removal) && ReceiptFor(receipt, removal.eid) && receipt.task != ""
    requires forall e :: e in m + b && IsRemoval(e) ==> e.eid != removal.eid
    ensures ViewAfter(refs, k, a + [receipt] + (m + [removal] + b), None) == ViewAfter(refs, k, a + (m + [removal] + b) + [receipt], None)
            <==> k != removal.node || Settled(refs, receipt, removal, [receipt] + m + b)
  {
    var mid, v := m + [removal] + b, ViewAfter(refs, k, a, None);
    assert a + [receipt] + mid == a + ([receipt] + mid);
    assert [receipt] + mid == [receipt] + m + [removal] + b;
    ViewAfterConcat(refs, k, a, [receipt] + mid, None);
    ViewAfterConcat(refs, k, [receipt] + m + [removal], b, v);
    ViewAfterConcat(refs, k, [receipt] + m, [removal], v);
    ViewAfterConcat(refs, k, [receipt], m, v);
    ViewAfterConcat(refs, k, a + mid, [receipt], None);
    ViewAfterConcat(refs, k, a, mid, None);
    ViewAfterConcat(refs, k, m + [removal], b, v);
    ViewAfterConcat(refs, k, m, [removal], v);
    OneStep(refs, k, removal);
    OneStep(refs, k, receipt);
    if k == removal.node {
      EarlyView(refs, receipt, m, removal, b, v);
    }
  }

  /** Every other removal has another eid. */
  lemma OtherRemovals(early: seq<Event>, at: nat, m: seq<Event>, b: seq<Event>)
    requires DistinctEids(early) && |m| <= at < |early| - |b| && Named(early[at])
    requires early[at - |m|..at] == m && early[at + 1..at + 1 + |b|] == b
    ensures forall e :: e in m + b && IsRemoval(e) ==> e.eid != early[at].eid
  {
    forall e | e in m + b && IsRemoval(e)
      ensures e.eid != early[at].eid
    {
      if e in m {
        var i :| 0 <= i < |m| && m[i] == e;
        assert early[at - |m| + i] == e;
      } else {
        var i :| 0 <= i < |b| && b[i] == e;
        assert early[at + 1 + i] == e;
      }
    }
  }

  ghost predicate Movable(a: seq<Event>, receipt: Event, m: seq<Event>, removal: Event, b: seq<Event>, c: seq<Event>) {
    && IsRemoval(removal) && ReceiptFor(receipt, removal.eid) && receipt.task != ""
    && DistinctEids(a + [receipt] + (m + [removal] + b) + c)
  }

  lemma MovableRefs(a: seq<Event>, receipt: Event, m: seq<Event>, removal: Event, b: seq<Event>, c: seq<Event>)
    requires Movable(a, receipt, m, removal, b, c)
    ensures var early, late := a + [receipt] + (m + [removal] + b) + c, a + (m + [removal] + b) + [receipt] + c;
            DistinctEids(late) && Refs(early) == Refs(late) && Refers(Refs(early), removal)
    ensures forall e :: e in m + b && IsRemoval(e) ==> e.eid != removal.eid
  {
    hide DistinctEids, Refs;
    var early, at := a + [receipt] + (m + [removal] + b) + c, |a| + 1 + |m|;
    assert early[at] == removal && early[at - |m|..at] == m && early[at + 1..at + 1 + |b|] == b;
    OtherRemovals(early, at, m, b);
    LateDistinct(a, receipt, m + [removal] + b, c);
    RefsPermute(early, a + (m + [removal] + b) + [receipt] + c);
    JournalRefers(early, at);
  }

  /** Every key has the same view after the first n lines of both. */
  ghost predicate SameViews(a: seq<Event>, b: seq<Event>, n: nat)
    requires n <= |a| && n <= |b|
  {
    forall k {:trigger ViewAt(a, k, n)} {:trigger ViewAt(b, k, n)} :: ViewAt(a, k, n) == ViewAt(b, k, n)
  }

  /**
   A cleanup's receipt before the removal it answers, or after it: right after the later place every
   key's linkage is the same exactly when, of the lines in between, the removal aside, the last one
   bearing on the node is a receipt for that removal naming the same task (the early receipt itself,
   when no other bears on the node).
   */
  lemma EitherSideExactly(a: seq<Event>, receipt: Event, m: seq<Event>, removal: Event, b: seq<Event>, c: seq<Event>)
    requires Movable(a, receipt, m, removal, b, c)
    ensures var early, late := a + [receipt] + (m + [removal] + b) + c, a + (m + [removal] + b) + [receipt] + c;
            SameViews(early, late, |early| - |c|) <==> Settled(Refs(early), receipt, removal, [receipt] + m + b)
  {
    hide DistinctEids, Refs, Settled, Refers, ViewAt;
    var early, late := a + [receipt] + (m + [removal] + b) + c, a + (m + [removal] + b) + [receipt] + c;
    var n := |early| - |c|;
    forall k {:trigger ViewAt(early, k, n)}
      ensures ViewAt(early, k, n) == ViewAt(late, k, n) <==> k != removal.node || Settled(Refs(early), receipt, removal, [receipt] + m + b)
    {
      EitherView(a, receipt, m, removal, b, c, k);
    }
    assert ViewAt(early, removal.node, n) == ViewAt(early, removal.node, n);
  }

  lemma EitherView(a: seq<Event>, receipt: Event, m: seq<Event>, removal: Event, b: seq<Event>, c: seq<Event>, k: string)
    requires Movable(a, receipt, m, removal, b, c)
    ensures var early, late := a + [receipt] + (m + [removal] + b) + c, a + (m + [removal] + b) + [receipt] + c;
            var n := |early| - |c|;
            ViewAt(early, k, n) == ViewAt(late, k, n) <==> k != removal.node || Settled(Refs(early), receipt, removal, [receipt] + m + b)
  {
    hide DistinctEids, Refs, Settled, Index, Refers, ViewAfter, EntryAt, Bearing;
    var early, late := a + [receipt] + (m + [removal] + b) + c, a + (m + [removal] + b) + [receipt] + c;
    var n := |early| - |c|;
    assert early[..n] == a + [receipt] + (m + [removal] + b) && late[..n] == a + (m + [removal] + b) + [receipt];
    MovableRefs(a, receipt, m, removal, b, c);
    EntryViews(early, k, n);
    EntryViews(late, k, n);
    EitherViews(Refs(early), a, receipt, m, removal, b, k);
  }

  /** Then whatever follows leaves every key's linkage the same. */
  lemma CleanupEitherSide(a: seq<Event>, receipt: Event, m: seq<Event>, removal: Event, b: seq<Event>, c: seq<Event>, k: string)
    requires Movable(a, receipt, m, removal, b, c)
    requires Settled(Refs(a + [receipt] + (m + [removal] + b) + c), receipt, removal, [receipt] + m + b)
    ensures ViewOf(Linkage(a + [receipt] + (m + [removal] + b) + c, k)) == ViewOf(Linkage(a + (m + [removal] + b) + [receipt] + c, k))
  {
    hide DistinctEids, Refs, Settled, Linkage, Refers;
    var early, late := a + [receipt] + (m + [removal] + b) + c, a + (m + [removal] + b) + [receipt] + c;
    MovableRefs(a, receipt, m, removal, b, c);
    LinkageView(early, k);
    LinkageView(late, k);
    EitherViews(Refs(early), a, receipt, m, removal, b, k);
    ViewAfterConcat(Refs(early), k, a + [receipt] + (m + [removal] + b), c, None);
    ViewAfterConcat(Refs(early), k, a + (m + [removal] + b) + [receipt], c, None);
  }

  lemma RefIs(events: seq<Event>, i: nat)
    requires DistinctEids(events) && i < |events| && Named(events[i])
    ensures events[i].eid in Refs(events) && Refs(events)[events[i].eid] == events[i]
  {
    IndexFinds(events, i);
  }

  /** Not always: with a receipt for the node's earlier event in between, the early cleanup receipt is lost. */
  lemma CleanupLost(added: Event, removal: Event)
    requires added.Change? && added.change == Added && added.node == "n" && added.eid == "e1"
    requires IsRemoval(removal) && removal.node == "n" && removal.eid == "e2"
    ensures var cleanup, created := Receipt(TaskCreated, "t2", For("e2")), Receipt(TaskCreated, "t1", For("e1"));
            && ViewOf(Linkage([added, cleanup, created, removal], "n")) == Some(View("", true, removal))
            && ViewOf(Linkage([added, created, removal, cleanup], "n")) == Some(View("t2", true, removal))
  {
    hide Refs, Index, Linkage, Effect, ViewStep;
    var cleanup, created := Receipt(TaskCreated, "t2", For("e2")), Receipt(TaskCreated, "t1", For("e1"));
    var early, late := [added, cleanup, created, removal], [added, created, removal, cleanup];
    RefIs(early, 0);
    RefIs(early, 3);
    RefIs(late, 0);
    RefIs(late, 2);
    FourViews(early);
    FourViews(late);
    FourSteps(Refs(early), added, removal);
    FourSteps(Refs(late), added, removal);
  }

  lemma FourSteps(refs: map<string, Event>, added: Event, removal: Event)
    requires added.Change? && added.change == Added && added.node == "n" && added.eid == "e1" && "e1" in refs && refs["e1"] == added
    requires IsRemoval(removal) && removal.node == "n" && removal.eid == "e2" && "e2" in refs && refs["e2"] == removal
    ensures var cleanup, created := Receipt(TaskCreated, "t2", For("e2")), Receipt(TaskCreated, "t1", For("e1"));
            && ViewStep(refs, "n", added, None) == None
            && (forall v :: ViewStep(refs, "n", cleanup, v) == Some(View("t2", true, removal)))
            && (forall v :: ViewStep(refs, "n", created, v) == Some(View("t1", false, added)))
            && ViewStep(refs, "n", removal, Some(View("t1", false, added))) == Some(View("", true, removal))
  {
  }

  /** The fold of four lines, one at a time. */
  lemma FourViews(events: seq<Event>)
    requires |events| == 4
    ensures var refs := Refs(events);
            ViewOf(Linkage(events, "n")) ==
            ViewStep(refs, "n", events[3], ViewStep(refs, "n", events[2], ViewStep(refs, "n", events[1], ViewStep(refs, "n", events[0], None))))
  {
    hide ViewStep;
    var refs := Refs(events);
    LinkageView(events, "n");
    assert events[..3][..2] == events[..2] && events[..2][..1] == events[..1] && events[..1][..0] == [];
    assert ViewAfter(refs, "n", events[..1], None) == ViewStep(refs, "n", events[0], None);
    assert ViewAfter(refs, "n", events[..2], None) == ViewStep(refs, "n", events[1], ViewAfter(refs, "n", events[..1], None));
    assert ViewAfter(refs, "n", events[..3], None) == ViewStep(refs, "n", events[2], ViewAfter(refs, "n", events[..2], None));
  }

  lemma OneStep(refs: map<string, Event>, k: string, e: Event)
    ensures forall v :: ViewAfter(refs, k, [e], v) == ViewStep(refs, k, e, v)
  {
    forall v
      ensures ViewAfter(refs, k, [e], v) == ViewStep(refs, k, e, v)
    {
      assert [e][..0] == [];
      assert ViewAfter(refs, k, [e][..0], v) == v;
    }
  }

  lemma LateDistinct(a: seq<Event>, receipt: Event, mid: seq<Event>, c: seq<Event>)
    requires receipt.Receipt? && DistinctEids(a + [receipt] + mid + c)
    ensures DistinctEids(a + mid + [receipt] + c)
    ensures multiset(a + [receipt] + mid + c) == multiset(a + mid + [receipt] + c)
  {
    var early, late := a + [receipt] + mid + c, a + mid + [receipt] + c;
    var p, q := |a|, |a| + |mid|;
    forall i | 0 <= i < |late| && Named(late[i])
      ensures 0 <= EarlyPlace(p, q, i) < |early| && late[i] == early[EarlyPlace(p, q, i)]
    {
    }
    forall i, j | 0 <= i < j < |late| && Named(late[i]) && Named(late[j])
      ensures late[i].eid != late[j].eid
    {
      assert EarlyPlace(p, q, i) < EarlyPlace(p, q, j);
    }
  }

  /** Where a line other than the moved receipt stood before the move. */
  ghost function EarlyPlace(p: int, q: int, i: int): int {
    if p <= i < q then i + 1 else i
  }
}
