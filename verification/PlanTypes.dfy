/**
 The records that pass between the planning steps: actions as the classifier
 emits them, and the operations of a changeset.
 */
module PlanTypes {
  import opened Results
  import opened Order

  const KIND_PROPOSAL_EPIC := "proposal_epic"
  const KIND_COMPONENT := "component"
  const KIND_DATA_FLOW := "data_flow"
  const KIND_TEST_SECTION := "test_section"
  const KIND_CLEANUP := "cleanup"
  const CLEANUP_REASON := "Code cleanup:"
  const LABEL_PREFIX := "spex:"

  datatype ActionType = ActionCreate | ActionObsolete | ActionRetarget

  /** `task` is empty on a create; `hash` is empty on an obsolete and on a cleanup. */
  datatype Action = Action(
    kind: ActionType, task: string, mod: string, name: string, nodeType: string,
    node: string, hash: string, deps: seq<string>, reason: string)

  /** A cleanup create is told apart by its reason, not by its node type. */
  predicate IsCleanup(a: Action) {
    CLEANUP_REASON <= a.reason
  }

  datatype Ref = TaskRef(id: string) | OpRef(id: string)

  datatype OpType = Create | Close | Retarget | UnknownOp

  datatype Op = Op(
    opId: string, kind: OpType, nodeKind: string, node: string, hash: string,
    idemLabel: Option<string>, parent: Option<Ref>, deps: seq<Ref>, title: string,
    target: Option<Ref>, labels: seq<string>, reason: string)

  datatype AbsorbedEntry = AbsorbedEntry(node: string, before: string, after: string, reason: string)

  datatype Changeset = Changeset(gitHead: string, proposal: string, ops: seq<Op>, absorbed: seq<AbsorbedEntry>)

  /** The one formula both the label of an op and the event it leads to are named by. */
  function DeriveEid(gitHead: string, opId: string): string {
    gitHead + ":" + opId
  }

  function IdsOf(s: seq<Action>): (r: seq<string>)
    ensures |r| == |s| && forall i :: 0 <= i < |s| ==> r[i] == s[i].node
  {
    seq(|s|, i requires 0 <= i < |s| => s[i].node)
  }

  ghost predicate DistinctIds(s: seq<Action>) {
    forall i, j :: 0 <= i < j < |s| ==> s[i].node != s[j].node
  }

  function NodeSet(s: seq<Action>): set<string> {
    set a | a in s :: a.node
  }

  lemma DistinctElements(s: seq<Action>)
    requires DistinctIds(s)
    ensures NoDuplicates(s) && NoDuplicates(IdsOf(s))
    ensures forall a, b :: a in s && b in s && a.node == b.node ==> a == b
  {
  }

  /** Listings of the same distinct actions are permutations of each other. */
  lemma SameActions(s: seq<Action>, t: seq<Action>)
    requires NoDuplicates(s) && NoDuplicates(t) && forall a :: a in s <==> a in t
    ensures multiset(s) == multiset(t)
  {
    NoDuplicatesMultiset(s);
    NoDuplicatesMultiset(t);
    assert (set a | a in s) == (set a | a in t);
  }
}
