/** getProductionDeploymentId: find the live deployment that must never be deleted. */
module Resolver {
  import opened Wrappers
  import opened Api

  /**
   * Judges the project-metadata reply.  An envelope whose success flag is
   * false fails with its first reported error; a successful envelope whose
   * canonical id is missing or empty (falsy) fails with MissingProductionId;
   * a reply that never arrived fails as a fetch failure.  Only a non-empty
   * canonical id of a successful envelope is returned.
   */
  function GetProductionDeploymentId(reply: Reply<ProjectInfo>): (r: Result<DeploymentId, Error>)
    ensures r.Success? <==>
              reply.Response? && reply.body.success &&
              reply.body.result.canonicalDeploymentId.Some? &&
              reply.body.result.canonicalDeploymentId.value != ""
    ensures r.Success? ==> r.value != "" && Some(r.value) == reply.body.result.canonicalDeploymentId
    ensures reply.NoResponse? ==> r == Failure(FetchFailed)
    ensures reply.Response? && !reply.body.success ==> r == Failure(FirstError(reply.body.errors))
    ensures reply.Response? && reply.body.success && r.Failure? ==> r.error == MissingProductionId
  {
    match reply
    case NoResponse => Failure(FetchFailed)
    case Response(body) =>
      if !body.success then Failure(FirstError(body.errors))
      else
        match body.result.canonicalDeploymentId
        case None => Failure(MissingProductionId)
        case Some(id) => if id == "" then Failure(MissingProductionId) else Success(id)
  }
}
