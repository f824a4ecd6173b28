/**
 * `main` inside `run`: check the configuration, resolve the production
 * deployment, list every deployment, then delete all but the production one.
 * The remote is given as its replies; the run reports how it ended and every
 * request it made, in order.
 */
module Cleanup {
  import opened Wrappers
  import opened Api
  import opened Urls
  import opened Resolver
  import opened Paginator
  import opened Deletion

  /**
   * The three presence checks at the top of main, in source order: the first
   * empty (falsy) string among apiToken, accountId and projectName is the
   * error thrown.
   */
  function CheckConfig(config: Config): (r: Outcome<Error>)
    ensures r.Pass? <==> config.apiToken != "" && config.accountId != "" && config.projectName != ""
    ensures r == Fail(MissingApiToken) <==> config.apiToken == ""
    ensures r == Fail(MissingAccountId) <==> config.apiToken != "" && config.accountId == ""
    ensures r == Fail(MissingProjectName) <==>
              config.apiToken != "" && config.accountId != "" && config.projectName == ""
  {
    if config.apiToken == "" then Fail(MissingApiToken)
    else if config.accountId == "" then Fail(MissingAccountId)
    else if config.projectName == "" then Fail(MissingProjectName)
    else Pass
  }

  /** A request the run sends to the remote. */
  datatype Call = GetProject(url: string) | ListPage(url: string) | Delete(url: string)

  /** How a run ends. */
  datatype RunOutcome =
    | Threw(error: Error)                                        // main rejects: bad config or no production id
    | ListingAborted(page: nat, error: Error)                    // process.exit(1) after the retries
    | ListingUnanswered                                          // the replies ran out while listing
    | Finished(productionId: DeploymentId, events: seq<DeleteEvent>)

  function ListCalls(config: Config, pages: seq<nat>): (calls: seq<Call>)
    ensures |calls| == |pages|
    ensures forall i :: 0 <= i < |pages| ==> calls[i] == ListPage(ListUrl(config, pages[i]))
  {
    seq(|pages|, i requires 0 <= i < |pages| => ListPage(ListUrl(config, pages[i])))
  }

  function DeleteCalls(urls: seq<string>): (calls: seq<Call>)
    ensures |calls| == |urls|
    ensures forall i :: 0 <= i < |urls| ==> calls[i] == Delete(urls[i])
  {
    seq(|urls|, i requires 0 <= i < |urls| => Delete(urls[i]))
  }

  /**
   * The requests of a run that got past resolution: the metadata request,
   * one request per listing attempt, then, only after a complete listing,
   * the DELETEs of a pass over exactly the listed ids.
   */
  predicate RunTrace(config: Config, productionId: DeploymentId, listing: ListRun,
                     server: string -> DeleteReply, events: seq<DeleteEvent>, calls: seq<Call>) {
    (listing.listing.Complete? ==> IsPass(config, server, productionId, listing.listing.ids, events)) &&
    calls == [GetProject(ProjectUrl(config))] + ListCalls(config, listing.requests) +
             (if listing.listing.Complete? then DeleteCalls(DeleteRequests(events)) else [])
  }

  /**
   * main.  A configuration error is thrown before any request; a failed
   * resolution after the metadata request alone; a listing that gives up
   * exits before any DELETE.  Only a complete listing reaches the deletion
   * pass, which handles every listed id on its own.
   */
  method Run(config: Config, projectReply: Reply<ProjectInfo>, listReplies: seq<ListReply>,
             server: string -> DeleteReply)
    returns (outcome: RunOutcome, calls: seq<Call>)
    ensures CheckConfig(config).Fail? ==> outcome == Threw(CheckConfig(config).error) && calls == []
    ensures CheckConfig(config).Pass? && GetProductionDeploymentId(projectReply).Failure? ==>
              outcome == Threw(GetProductionDeploymentId(projectReply).error) &&
              calls == [GetProject(ProjectUrl(config))]
    ensures CheckConfig(config).Pass? && GetProductionDeploymentId(projectReply).Success? ==>
              var productionId := GetProductionDeploymentId(projectReply).value;
              var listing := ListingRun(config, listReplies);
              RunTrace(config, productionId, listing, server, if outcome.Finished? then outcome.events else [], calls) &&
              match listing.listing
              case Aborted(page, e) => outcome == ListingAborted(page, e)
              case Unanswered(_) => outcome == ListingUnanswered
              case Complete(_) => outcome.Finished? && outcome.productionId == productionId
  {
    var checked := CheckConfig(config);
    if checked.Fail? {
      return Threw(checked.error), [];
    }
    calls := [GetProject(ProjectUrl(config))];
    var resolved := GetProductionDeploymentId(projectReply);
    if resolved.Failure? {
      return Threw(resolved.error), calls;
    }
    var productionId := resolved.value;
    var listing, requests := ListAllDeployments(config, listReplies);
    calls := calls + ListCalls(config, requests);
    match listing {
      case Aborted(page, e) =>
        return ListingAborted(page, e), calls;
      case Unanswered(_) =>
        return ListingUnanswered, calls;
      case Complete(ids) =>
        var events := DeleteAllExcept(config, ids, productionId, server);
        calls := calls + DeleteCalls(DeleteRequests(events));
        return Finished(productionId, events), calls;
    }
  }

  /**
   * Whatever the replies, a run that does not finish its listing sends no
   * DELETE, and a run that does never sends the production deployment's
   * DELETE: every DELETE it sends is for a listed, non-production id.
   */
  lemma {:induction false} NoDeleteUnlessListed(config: Config, productionId: DeploymentId, listing: ListRun,
                                               server: string -> DeleteReply, events: seq<DeleteEvent>, calls: seq<Call>)
    requires RunTrace(config, productionId, listing, server, events, calls)
    ensures !listing.listing.Complete? ==> forall c :: c in calls ==> !c.Delete?
    ensures forall c :: c in calls && c.Delete? ==>
              listing.listing.Complete? && c.url != DeleteUrl(config, productionId)
  {
    var head := [GetProject(ProjectUrl(config))] + ListCalls(config, listing.requests);
    assert forall c :: c in head ==> !c.Delete?;
    if listing.listing.Complete? {
      var urls := DeleteRequests(events);
      assert calls == head + DeleteCalls(urls);
      DeletesComeLast(head, urls);
      forall url | url in urls
        ensures url != DeleteUrl(config, productionId)
      {
        DeleteRequestTargets(config, server, productionId, listing.listing.ids, events, url);
      }
    } else {
      assert calls == head;
    }
  }

  /** Behind requests that are not DELETEs, the only DELETEs are those of the urls appended. */
  lemma DeletesComeLast(head: seq<Call>, urls: seq<string>)
    requires forall c :: c in head ==> !c.Delete?
    ensures forall c :: c in head + DeleteCalls(urls) && c.Delete? ==> c.url in urls
  {
    var calls := head + DeleteCalls(urls);
    forall c | c in calls && c.Delete?
      ensures c.url in urls
    {
      var k :| 0 <= k < |calls| && calls[k] == c;
      assert k >= |head|;
      assert calls[k] == Delete(urls[k - |head|]);
    }
  }

  lemma {:induction false} DeleteRequestTargets(config: Config, server: string -> DeleteReply, productionId: DeploymentId,
                                                ids: seq<DeploymentId>, events: seq<DeleteEvent>, url: string)
    requires IsPass(config, server, productionId, ids, events)
    requires url in DeleteRequests(events)
    ensures exists id :: id in ids && id != productionId && url == DeleteUrl(config, id)
    ensures url != DeleteUrl(config, productionId)
    decreases |ids|
  {
    assert ids != [];
    assert events[0] == Handle(config, server, productionId, ids[0]);
    var first := if events[0].Attempted? then [events[0].url] else [];
    assert DeleteRequests(events) == first + DeleteRequests(events[1..]);
    if url in first {
      DeleteUrlInjective(config, ids[0], productionId);
    } else {
      assert IsPass(config, server, productionId, ids[1..], events[1..]) by {
        forall i | 0 <= i < |ids| - 1
          ensures events[1..][i] == Handle(config, server, productionId, ids[1..][i])
        {
          assert events[1..][i] == events[i + 1];
        }
      }
      DeleteRequestTargets(config, server, productionId, ids[1..], events[1..], url);
      var id :| id in ids[1..] && id != productionId && url == DeleteUrl(config, id);
      assert id in ids;
    }
  }
}
