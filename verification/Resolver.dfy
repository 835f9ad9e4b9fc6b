/**
 How the planner sees the journal, and how it turns a dependency or a parent into
 a reference the adapter can apply blind.
 */
module Resolver {
  import opened Results
  import opened PlanTypes

  const STATUS_OPEN := "open"
  const STATUS_IN_PROGRESS := "in_progress"

  /** A fold entry as the planner sees it, joined with the live status of its task (empty when the task is absent). */
  datatype Pairing = Pairing(node: string, task: string, nodeType: string, mod: string, name: string,
                             status: string, after: string)

  /** Task-bearing entries by key, and the eid of the removal of each removed key. */
  datatype PlanFold = PlanFold(lookup: map<string, Pairing>, removal: map<string, string>)

  datatype PlanError =
    | UnresolvedDep(dep: string)
    | Unregistered(proposal: string)
    | EpicMissing(proposal: string)
    | NoNodeId

  predicate IsLive(status: string) {
    status == STATUS_OPEN || status == STATUS_IN_PROGRESS
  }

  /** What one dependency becomes: an op of the batch, a live task, nothing when its task is finished, or an error. */
  function ResolveDep(dep: string, batch: map<string, string>, fold: PlanFold): Result<seq<Ref>, PlanError> {
    if dep in batch then Ok([OpRef(batch[dep])])
    else if dep !in fold.lookup then Err(UnresolvedDep(dep))
    else if IsLive(fold.lookup[dep].status) then Ok([TaskRef(fold.lookup[dep].task)])
    else Ok([])
  }

  /** All of them in order, or the first error. */
  function Resolved(deps: seq<string>, batch: map<string, string>, fold: PlanFold): Result<seq<Ref>, PlanError> {
    if deps == [] then
      Ok([])
    else
      var before := Resolved(deps[..|deps| - 1], batch, fold);
      if before.Err? then
        before
      else
        var last := ResolveDep(deps[|deps| - 1], batch, fold);
        if last.Err? then last else Ok(before.value + last.value)
  }

  lemma {:induction false} ResolvedFails(deps: seq<string>, batch: map<string, string>, fold: PlanFold, k: nat)
    requires k <= |deps| && Resolved(deps[..k], batch, fold).Err?
    ensures Resolved(deps, batch, fold) == Resolved(deps[..k], batch, fold)
    decreases |deps| - k
  {
    if k < |deps| {
      assert deps[..k + 1][..k] == deps[..k];
      ResolvedFails(deps, batch, fold, k + 1);
    } else {
      assert deps[..k] == deps;
    }
  }

  method ResolveDeps(deps: seq<string>, batch: map<string, string>, fold: PlanFold) returns (r: Result<seq<Ref>, PlanError>)
    ensures r == Resolved(deps, batch, fold)
  {
    var refs: seq<Ref> := [];
    for k := 0 to |deps|
      invariant Resolved(deps[..k], batch, fold) == Ok(refs)
    {
      var dep := deps[k];
      assert deps[..k + 1][..k] == deps[..k] && refs + [] == refs;
      if dep in batch {
        refs := refs + [OpRef(batch[dep])];
      } else if dep in fold.lookup {
        if IsLive(fold.lookup[dep].status) {
          refs := refs + [TaskRef(fold.lookup[dep].task)];
        }
      } else {
        ResolvedFails(deps, batch, fold, k + 1);
        return Err(UnresolvedDep(dep));
      }
    }
    assert deps[..|deps|] == deps;
    return Ok(refs);
  }

  /** A dependency is resolved to exactly what its own lookup says; none is invented. */
  lemma {:induction false} ResolvedMember(deps: seq<string>, batch: map<string, string>, fold: PlanFold, r: Ref)
    requires Resolved(deps, batch, fold).Ok?
    ensures r in Resolved(deps, batch, fold).value <==>
            exists d :: d in deps && ResolveDep(d, batch, fold).Ok? && r in ResolveDep(d, batch, fold).value
  {
    if deps != [] {
      var init, last := deps[..|deps| - 1], deps[|deps| - 1];
      assert deps == init + [last];
      ResolvedMember(init, batch, fold, r);
    }
  }

  /** The resolution fails exactly when some dependency is neither in the batch nor tracked. */
  lemma {:induction false} ResolvedExactly(deps: seq<string>, batch: map<string, string>, fold: PlanFold)
    ensures Resolved(deps, batch, fold).Ok? <==> forall d :: d in deps ==> d in batch || d in fold.lookup
  {
    if deps != [] {
      var init, last := deps[..|deps| - 1], deps[|deps| - 1];
      assert deps == init + [last];
      ResolvedExactly(init, batch, fold);
    }
  }

  /** The epic's own create, needed when no task carries the proposal yet; a proposal must be registered first. */
  function ResolveEpicAction(proposal: string, fold: PlanFold, registration: string): Result<Option<Action>, PlanError> {
    if proposal in fold.lookup then Ok(None)
    else if registration == "" then Err(Unregistered(proposal))
    else Ok(Some(Action(ActionCreate, "", "", "", KIND_PROPOSAL_EPIC, proposal, "", [], "Proposal: " + proposal)))
  }

  function ResolveParent(proposal: string, fold: PlanFold, registration: string, batch: map<string, string>): Result<Ref, PlanError> {
    if proposal in fold.lookup then Ok(TaskRef(fold.lookup[proposal].task))
    else if registration == "" then Err(Unregistered(proposal))
    else if proposal !in batch then Err(EpicMissing(proposal))
    else Ok(OpRef(batch[proposal]))
  }
}
