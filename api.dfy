/**
 * The remote deployment API as the cleanup workflow sees it: the run's
 * configuration, the JSON envelope every endpoint answers with, and the
 * errors the workflow raises.  Replies are inputs of the model; nothing here
 * talks to a network.
 */
module Api {
  import opened Wrappers

  /** An opaque deployment identifier, taken verbatim from the remote listing. */
  type DeploymentId = string

  /** The four arguments of `run`: credential, account, project and the force flag. */
  datatype Config = Config(
    apiToken: string,
    accountId: string,
    projectName: string,
    deleteAliasedDeployments: bool)

  /** Every error the workflow throws, one constructor per distinct `throw`. */
  datatype Error =
    | MissingApiToken                  // "Please set apiToken ..."
    | MissingAccountId                 // "Please set accountId ..."
    | MissingProjectName               // "Please set projectName ..."
    | ApiError(message: string)        // body.errors[0].message
    | MalformedErrorList               // success false with no error entry: errors[0] is undefined
    | FetchFailed                      // the request or its JSON decoding rejected
    | MissingProductionId              // "Unable to fetch production deployment ID"
    | ListingFailed(project: string)   // "Could not fetch deployments for <project>"

  /** The body shape `{ success, errors: [{message}], result }` shared by all endpoints. */
  datatype Envelope<T> = Envelope(success: bool, errors: seq<string>, result: T)

  /** What one request yields: no usable response at all, or a decoded envelope. */
  datatype Reply<T> = NoResponse | Response(body: Envelope<T>)

  /** One record of the listing endpoint; only its id is used. */
  datatype Deployment = Deployment(id: DeploymentId)

  /** The part of the project metadata the workflow reads: canonical_deployment.id, if any. */
  datatype ProjectInfo = ProjectInfo(canonicalDeploymentId: Option<DeploymentId>)

  /**
   * The error thrown for an envelope whose success flag is false: the first
   * reported message, or the TypeError of reading `errors[0].message` when the
   * list is empty.
   */
  function FirstError(errors: seq<string>): (e: Error)
    ensures e.ApiError? <==> |errors| > 0
    ensures e.ApiError? ==> e.message == errors[0]
    ensures !e.ApiError? ==> e == MalformedErrorList
  {
    if |errors| > 0 then ApiError(errors[0]) else MalformedErrorList
  }

  /** The ids of a page of records, in the order they were received. */
  function IdsOf(records: seq<Deployment>): (ids: seq<DeploymentId>)
    ensures |ids| == |records|
    ensures forall i :: 0 <= i < |records| ==> ids[i] == records[i].id
  {
    seq(|records|, i requires 0 <= i < |records| => records[i].id)
  }
}
