/**
 * The deletion pass of `main`: walk the listed ids in order, skip the
 * production deployment, and send one DELETE for every other id, catching
 * each failure so that the pass goes on.
 */
module Deletion {
  import opened Wrappers
  import opened Api
  import opened Urls

  type DeleteReply = Reply<()>

  /** What one iteration of the pass did with its id. */
  datatype DeleteEvent =
    | Skipped(id: DeploymentId)
    | Attempted(id: DeploymentId, url: string, failure: Option<Error>)

  /**
   * deleteDeployment, with its failure caught: one DELETE of the id's URL; a
   * reply that never arrived, or whose success flag is false, becomes the
   * caught error (the first reported message in the second case).
   */
  function DeleteDeployment(config: Config, server: string -> DeleteReply, id: DeploymentId): (e: DeleteEvent)
    ensures e.Attempted? && e.id == id && e.url == DeleteUrl(config, id)
    ensures e.failure.None? <==> server(e.url).Response? && server(e.url).body.success
    ensures server(e.url).NoResponse? ==> e.failure == Some(FetchFailed)
    ensures server(e.url).Response? && !server(e.url).body.success ==>
              e.failure == Some(FirstError(server(e.url).body.errors))
  {
    var url := DeleteUrl(config, id);
    match server(url)
    case NoResponse => Attempted(id, url, Some(FetchFailed))
    case Response(body) =>
      if !body.success then Attempted(id, url, Some(FirstError(body.errors)))
      else Attempted(id, url, None)
  }

  /** One iteration of the pass: the production id is skipped, any other id deleted. */
  function Handle(config: Config, server: string -> DeleteReply, productionId: DeploymentId, id: DeploymentId): (e: DeleteEvent)
    ensures e.id == id
    ensures e.Skipped? <==> id == productionId
    ensures e.Attempted? ==> e == DeleteDeployment(config, server, id)
  {
    if id == productionId then Skipped(id) else DeleteDeployment(config, server, id)
  }

  /**
   * A complete pass over ids: one event per id, and event i is what id i
   * alone leads to.
   */
  predicate IsPass(config: Config, server: string -> DeleteReply, productionId: DeploymentId,
                   ids: seq<DeploymentId>, events: seq<DeleteEvent>) {
    |events| == |ids| &&
    forall i :: 0 <= i < |ids| ==> events[i] == Handle(config, server, productionId, ids[i])
  }

  /**
   * The `for (const id of deploymentIds)` loop.  Event i is what id i alone
   * leads to: whatever an earlier delete answered, later ids are still
   * handled, and the production id is never sent.
   */
  method DeleteAllExcept(config: Config, ids: seq<DeploymentId>, productionId: DeploymentId, server: string -> DeleteReply)
    returns (events: seq<DeleteEvent>)
    ensures IsPass(config, server, productionId, ids, events)
  {
    events := [];
    for i := 0 to |ids|
      invariant |events| == i
      invariant forall k :: 0 <= k < i ==> events[k] == Handle(config, server, productionId, ids[k])
    {
      var id := ids[i];
      if id == productionId {
        events := events + [Skipped(id)];
      } else {
        var attempt := DeleteDeployment(config, server, id);
        events := events + [attempt];
      }
    }
  }

  /** The ids that received a DELETE, in the order the requests went out. */
  function AttemptedIds(events: seq<DeleteEvent>): seq<DeploymentId>
    decreases |events|
  {
    if events == [] then []
    else (if events[0].Attempted? then [events[0].id] else []) + AttemptedIds(events[1..])
  }

  /** The DELETE requests of a pass, in order. */
  function DeleteRequests(events: seq<DeleteEvent>): seq<string>
    decreases |events|
  {
    if events == [] then []
    else (if events[0].Attempted? then [events[0].url] else []) + DeleteRequests(events[1..])
  }

  /**
   * The ids with every occurrence of x removed, order kept: x is gone and
   * every other id occurs exactly as often as before.
   */
  function Without(ids: seq<DeploymentId>, x: DeploymentId): (r: seq<DeploymentId>)
    ensures x !in r
    ensures forall y :: y != x ==> multiset(r)[y] == multiset(ids)[y]
    ensures |r| == |ids| - multiset(ids)[x]
    decreases |ids|
  {
    if ids == [] then []
    else
      assert ids == [ids[0]] + ids[1..];
      (if ids[0] == x then [] else [ids[0]]) + Without(ids[1..], x)
  }

  /**
   * The pass deletes exactly the ids other than the production id, one
   * request per occurrence, in list order, whatever the replies: the
   * production id is never sent, however often it is listed.
   */
  lemma {:induction false} DeletesAllButProduction(config: Config, server: string -> DeleteReply, productionId: DeploymentId,
                                                  ids: seq<DeploymentId>, events: seq<DeleteEvent>)
    requires IsPass(config, server, productionId, ids, events)
    ensures AttemptedIds(events) == Without(ids, productionId)
    ensures productionId !in AttemptedIds(events)
    decreases |ids|
  {
    if ids != [] {
      assert IsPass(config, server, productionId, ids[1..], events[1..]) by {
        forall i | 0 <= i < |ids| - 1
          ensures events[1..][i] == Handle(config, server, productionId, ids[1..][i])
        {
          assert events[1..][i] == events[i + 1];
        }
      }
      DeletesAllButProduction(config, server, productionId, ids[1..], events[1..]);
      assert events[0] == Handle(config, server, productionId, ids[0]);
    }
  }

  /**
   * Every DELETE of a pass goes to the URL of a non-production id; with the
   * force flag every one carries `force=true` as its whole query string,
   * without it none carries a query string at all.
   */
  lemma {:induction false} DeleteRequestsFollowFlag(config: Config, server: string -> DeleteReply, productionId: DeploymentId,
                                                   ids: seq<DeploymentId>, events: seq<DeleteEvent>)
    requires IsPass(config, server, productionId, ids, events)
    requires PathSafe(config) && forall i :: 0 <= i < |ids| ==> InPath(ids[i])
    ensures forall url :: url in DeleteRequests(events) ==>
              url != DeleteUrl(config, productionId) &&
              QueryOf(url) == if config.deleteAliasedDeployments then Some("force=true") else None
    decreases |ids|
  {
    if ids != [] {
      assert IsPass(config, server, productionId, ids[1..], events[1..]) by {
        forall i | 0 <= i < |ids| - 1
          ensures events[1..][i] == Handle(config, server, productionId, ids[1..][i])
        {
          assert events[1..][i] == events[i + 1];
        }
      }
      DeleteRequestsFollowFlag(config, server, productionId, ids[1..], events[1..]);
      var first := if events[0].Attempted? then [events[0].url] else [];
      var rest := DeleteRequests(events[1..]);
      assert DeleteRequests(events) == first + rest;
      forall url | url in DeleteRequests(events)
        ensures url != DeleteUrl(config, productionId)
        ensures QueryOf(url) == if config.deleteAliasedDeployments then Some("force=true") else None
      {
        if url !in rest {
          assert url in first && ids[0] != productionId;
          assert events[0] == DeleteDeployment(config, server, ids[0]);
          assert url == DeleteUrl(config, ids[0]);
          assert InPath(ids[0]);
          DeleteUrlInjective(config, ids[0], productionId);
        }
      }
    }
  }
}
