/** The idempotency label: "spex:" and the eid of the event the operation's task will answer. */
module Labeler {
  import opened Results
  import opened PlanTypes
  import opened Resolver

  /** The removal that already landed, else the one the cleanup itself will mint. */
  function CleanupLabel(fold: PlanFold, gitHead: string, a: Action, opId: string): string {
    if a.node in fold.removal && fold.removal[a.node] != "" then LABEL_PREFIX + fold.removal[a.node]
    else LABEL_PREFIX + DeriveEid(gitHead, opId)
  }

  function LabelFor(fold: PlanFold, gitHead: string, a: Action, opId: string, registration: string): Result<string, PlanError> {
    if a.nodeType == KIND_PROPOSAL_EPIC then
      if registration == "" then Err(Unregistered(a.node)) else Ok(LABEL_PREFIX + registration)
    else if a.node == "" then
      Err(NoNodeId)
    else if IsCleanup(a) then
      Ok(CleanupLabel(fold, gitHead, a, opId))
    else
      Ok(LABEL_PREFIX + DeriveEid(gitHead, opId))
  }
}
