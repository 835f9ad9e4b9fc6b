/**
 The gates a batch passes before it reaches the journal: single pairing, known
 referents, and valid lines.
 */
module InvariantChecker {
  import opened Results
  import opened Journal
  import opened EventBuilder

  /** How many receipts of this kind answer `referent`. */
  function Pairings(events: seq<Event>, kind: ReceiptKind, referent: Referent): nat {
    if events == [] then
      0
    else
      var e := events[|events| - 1];
      Pairings(events[..|events| - 1], kind, referent) +
      if e.Receipt? && e.receipt == kind && e.referent == referent then 1 else 0
  }

  lemma PairingsNext(events: seq<Event>, kind: ReceiptKind, referent: Referent, k: nat)
    requires k < |events|
    ensures Pairings(events[..k + 1], kind, referent) == Pairings(events[..k], kind, referent) +
            if events[k].Receipt? && events[k].receipt == kind && events[k].referent == referent then 1 else 0
  {
    assert events[..k + 1][..k] == events[..k];
  }

  lemma {:induction false} PairingsConcat(a: seq<Event>, b: seq<Event>, kind: ReceiptKind, referent: Referent)
    ensures Pairings(a + b, kind, referent) == Pairings(a, kind, referent) + Pairings(b, kind, referent)
  {
    if b == [] {
      assert a + b == a;
    } else {
      assert (a + b)[..|a + b| - 1] == a + b[..|b| - 1];
      PairingsConcat(a, b[..|b| - 1], kind, referent);
    }
  }

  /** The kinds of pairing that must be unique: created tasks by any referent, retargets by event. */
  predicate Paired(kind: ReceiptKind, referent: Referent) {
    referent != For("") && (kind == TaskCreated || (kind == TaskRetargeted && referent.For?))
  }

  /** Invariant 1: no referent is paired twice. */
  ghost predicate SinglyPaired(events: seq<Event>) {
    forall kind, referent {:trigger Pairings(events, kind, referent)} ::
      Paired(kind, referent) ==> Pairings(events, kind, referent) <= 1
  }

  function EidSet(events: seq<Event>): set<string> {
    set e | e in events && EidOf(e) != "" :: EidOf(e)
  }

  predicate KnownReferents(known: set<string>, e: Event) {
    match e
    case Receipt(_, _, For(t)) => t != "" ==> t in known
    case Refresh(_, absorbed) => forall a :: a in absorbed ==> a in known
    case _ => true
  }

  /** Invariant 2: what the batch's receipts name is in the journal or the batch. */
  ghost predicate Answered(existing: seq<Event>, batch: seq<Event>) {
    forall e :: e in batch ==> KnownReferents(EidSet(existing + batch), e)
  }

  // ---- the line schema ----

  predicate IsHexDigit(c: char) {
    '0' <= c <= '9' || 'a' <= c <= 'f'
  }

  predicate IsHash(s: string) {
    |s| == 12 && forall c :: c in s ==> IsHexDigit(c)
  }

  predicate IsTypeName(s: string) {
    s != "" && 'a' <= s[0] <= 'z' &&
    forall c :: c in s ==> 'a' <= c <= 'z' || '0' <= c <= '9' || c == '_'
  }

  /** What the journal-line schema asks of a line. */
  predicate LineShape(e: Event) {
    match e
    case Change(_, eid, node, _, nodeType, _, _, _, _, _, _) => eid != "" && IsHash(node) && IsTypeName(nodeType)
    case Registered(eid, proposal, _) => eid != "" && proposal != ""
    case Receipt(kind, task, For(t)) => task != "" && t != ""
    case Receipt(kind, task, Slug(p)) => task != "" && p != "" && kind != TaskRetargeted
    case Refresh(_, absorbed) => forall a :: a in absorbed ==> a != ""
  }

  /** Invariant 5: the schema, and a node type the profile declares. */
  predicate LineValid(declared: set<string>, e: Event) {
    LineShape(e) && (e.Change? ==> e.nodeType in declared)
  }

  // ---- the checks as the program runs them ----

  ghost predicate Seen(events: seq<Event>, created: set<Referent>, retargeted: set<Referent>) {
    && (forall r :: r in created <==> Paired(TaskCreated, r) && Pairings(events, TaskCreated, r) >= 1)
    && (forall r :: r in retargeted <==> Paired(TaskRetargeted, r) && Pairings(events, TaskRetargeted, r) >= 1)
  }

  lemma PairingsMonotone(events: seq<Event>, kind: ReceiptKind, referent: Referent, k: nat)
    requires k <= |events|
    ensures Pairings(events[..k], kind, referent) <= Pairings(events, kind, referent)
  {
    assert events == events[..k] + events[k..];
    PairingsConcat(events[..k], events[k..], kind, referent);
  }

  lemma DoublyPaired(events: seq<Event>, k: nat)
    requires k < |events| && events[k].Receipt? && Paired(events[k].receipt, events[k].referent)
    requires Pairings(events[..k], events[k].receipt, events[k].referent) >= 1
    ensures !SinglyPaired(events)
  {
    PairingsNext(events, events[k].receipt, events[k].referent, k);
    PairingsMonotone(events, events[k].receipt, events[k].referent, k + 1);
  }

  lemma SeenNext(events: seq<Event>, k: nat, created: set<Referent>, retargeted: set<Referent>)
    requires k < |events| && Seen(events[..k], created, retargeted) && SinglyPaired(events[..k])
    requires events[k].Receipt? && Paired(events[k].receipt, events[k].referent) ==>
               Pairings(events[..k], events[k].receipt, events[k].referent) == 0
    ensures SinglyPaired(events[..k + 1])
    ensures Seen(events[..k + 1],
                 if events[k].Receipt? && events[k].receipt == TaskCreated && Paired(TaskCreated, events[k].referent)
                 then created + {events[k].referent} else created,
                 if events[k].Receipt? && events[k].receipt == TaskRetargeted && Paired(TaskRetargeted, events[k].referent)
                 then retargeted + {events[k].referent} else retargeted)
  {
    forall kind, referent
      ensures Pairings(events[..k + 1], kind, referent) == Pairings(events[..k], kind, referent) +
              if events[k].Receipt? && events[k].receipt == kind && events[k].referent == referent then 1 else 0
    {
      PairingsNext(events, kind, referent, k);
    }
  }

  method CheckInvariant1(existing: seq<Event>, batch: seq<Event>) returns (ok: bool)
    ensures ok <==> SinglyPaired(existing + batch)
  {
    var all := existing + batch;
    var created: set<Referent> := {};
    var retargeted: set<Referent> := {};
    for k := 0 to |all|
      invariant SinglyPaired(all[..k]) && Seen(all[..k], created, retargeted)
    {
      var e := all[k];
      if e.Receipt? && Paired(e.receipt, e.referent) &&
         e.referent in (if e.receipt == TaskCreated then created else retargeted) {
        DoublyPaired(all, k);
        return false;
      }
      SeenNext(all, k, created, retargeted);
      if e.Receipt? && Paired(e.receipt, e.referent) {
        if e.receipt == TaskCreated {
          created := created + {e.referent};
        } else {
          retargeted := retargeted + {e.referent};
        }
      }
    }
    assert all[..|all|] == all;
    return true;
  }

  method CheckInvariant2(existing: seq<Event>, batch: seq<Event>) returns (ok: bool)
    ensures ok <==> Answered(existing, batch)
  {
    var known := EidSet(existing + batch);
    for k := 0 to |batch|
      invariant forall e :: e in batch[..k] ==> KnownReferents(known, e)
    {
      if !KnownReferents(known, batch[k]) {
        assert batch[k] in batch;
        return false;
      }
      assert batch[..k + 1] == batch[..k] + [batch[k]];
    }
    assert batch[..|batch|] == batch;
    return true;
  }
}
