/**
 * listAllDeployments: request page 1, 2, 3, ... of the deployment listing,
 * each request wrapped in a bounded retry, and collect every record's id
 * until a page comes back empty.
 *
 * The remote is a script of replies, one per request, consumed in the order
 * the requests are made.  A script that runs out before an empty page has
 * arrived ends the model's run with `Unanswered`: the source would go on
 * requesting.
 */
module Paginator {
  import opened Wrappers
  import opened Api

  /** numOfAttempts given to backOff. */
  const MaxAttempts: nat := 5

  type ListReply = Reply<seq<Deployment>>

  /**
   * listDeploymentsPerPage: a reply is a page of records exactly when it
   * arrived and its success flag is set; a body with success false throws
   * "Could not fetch deployments for <project>", whatever errors it lists.
   */
  function ListDeploymentsPerPage(config: Config, reply: ListReply): (r: Result<seq<Deployment>, Error>)
    ensures r.Success? <==> reply.Response? && reply.body.success
    ensures r.Success? ==> r.value == reply.body.result
    ensures r.Failure? && reply.Response? ==> r.error == ListingFailed(config.projectName)
  {
    match reply
    case NoResponse => Failure(FetchFailed)
    case Response(body) =>
      if !body.success then Failure(ListingFailed(config.projectName)) else Success(body.result)
  }

  predicate Succeeded(config: Config, reply: ListReply) {
    ListDeploymentsPerPage(config, reply).Success?
  }

  /** The termination signal: a successful reply carrying no records. */
  predicate EmptyPage(config: Config, reply: ListReply) {
    ListDeploymentsPerPage(config, reply) == Success([])
  }

  predicate AllFailed(config: Config, replies: seq<ListReply>) {
    forall j :: 0 <= j < |replies| ==> !Succeeded(config, replies[j])
  }

  /** The outcome of one backOff call and how many requests it made. */
  datatype Fetch =
    | Fetched(records: seq<Deployment>, attempts: nat)
    | GaveUp(error: Error, attempts: nat)
    | NoReplies

  /**
   * backOff around listDeploymentsPerPage, after `failures` failed attempts:
   * retry every failure until a page arrives or MaxAttempts attempts have
   * failed, in which case the last failure is rethrown.
   */
  function BackOff(config: Config, replies: seq<ListReply>, failures: nat): (f: Fetch)
    requires failures < MaxAttempts
    ensures !f.NoReplies? ==> 0 < f.attempts <= |replies| && f.attempts <= MaxAttempts - failures
    ensures f.GaveUp? ==> f.attempts == MaxAttempts - failures
    ensures f.NoReplies? ==> |replies| < MaxAttempts - failures
    decreases |replies|
  {
    if replies == [] then NoReplies
    else
      match ListDeploymentsPerPage(config, replies[0])
      case Success(records) => Fetched(records, 1)
      case Failure(e) =>
        if failures + 1 == MaxAttempts then GaveUp(e, 1)
        else
          var f := BackOff(config, replies[1..], failures + 1);
          match f
          case Fetched(records, n) => Fetched(records, n + 1)
          case GaveUp(e', n) => GaveUp(e', n + 1)
          case NoReplies => NoReplies
  }

  /**
   * What backOff's result says about the replies it consumed: a page is the
   * first success, after failures only; giving up means MaxAttempts
   * failures in a row, the last of which is rethrown; running out of
   * replies means every one of them failed.
   */
  lemma {:induction false} BackOffOutcome(config: Config, replies: seq<ListReply>, failures: nat)
    requires failures < MaxAttempts
    ensures var f := BackOff(config, replies, failures);
            (f.Fetched? ==>
               AllFailed(config, replies[..f.attempts - 1]) &&
               ListDeploymentsPerPage(config, replies[f.attempts - 1]) == Success(f.records)) &&
            (f.GaveUp? ==>
               AllFailed(config, replies[..f.attempts]) &&
               ListDeploymentsPerPage(config, replies[f.attempts - 1]) == Failure(f.error)) &&
            (f.NoReplies? ==> AllFailed(config, replies))
    decreases |replies|
  {
    if replies != [] && !Succeeded(config, replies[0]) && failures + 1 < MaxAttempts {
      var f := BackOff(config, replies, failures);
      BackOffOutcome(config, replies[1..], failures + 1);
      if !f.NoReplies? {
        assert replies[..f.attempts - 1] == [replies[0]] + replies[1..][..f.attempts - 2];
        assert replies[..f.attempts] == [replies[0]] + replies[1..][..f.attempts - 1];
      } else {
        assert replies == [replies[0]] + replies[1..];
      }
    }
  }

  /** One backOff call, attempt by attempt, starting at request `pos` of the script. */
  method ListPageWithRetry(config: Config, replies: seq<ListReply>, pos: nat) returns (f: Fetch)
    requires pos <= |replies|
    ensures f == BackOff(config, replies[pos..], 0)
  {
    var attempt := 0;
    while true
      invariant attempt < MaxAttempts && pos + attempt <= |replies|
      invariant BackOff(config, replies[pos..], 0) == Added(BackOff(config, replies[pos + attempt..], attempt), attempt)
      decreases |replies| - attempt
    {
      var i := pos + attempt;
      BackOffFirstReply(config, replies[i..], attempt);
      if i == |replies| {
        return NoReplies;
      }
      var r := ListDeploymentsPerPage(config, replies[i]);
      match r {
        case Success(records) =>
          return Fetched(records, attempt + 1);
        case Failure(e) =>
          if attempt + 1 == MaxAttempts {
            return GaveUp(e, attempt + 1);
          }
          RetryStep(config, replies, pos, attempt);
          attempt := attempt + 1;
      }
    }
  }

  /** After a failed attempt below the bound, the loop's invariant holds for the next attempt. */
  lemma RetryStep(config: Config, replies: seq<ListReply>, pos: nat, attempt: nat)
    requires pos + attempt < |replies| && attempt + 1 < MaxAttempts
    requires !Succeeded(config, replies[pos + attempt])
    requires BackOff(config, replies[pos..], 0) == Added(BackOff(config, replies[pos + attempt..], attempt), attempt)
    ensures BackOff(config, replies[pos..], 0) == Added(BackOff(config, replies[pos + attempt + 1..], attempt + 1), attempt + 1)
  {
    var i := pos + attempt;
    BackOffRetries(config, replies[i..], attempt);
    AddedTwice(BackOff(config, replies[i + 1..], attempt + 1), 1, attempt);
    assert replies[i..][1..] == replies[i + 1..];
  }

  /** The first reply decides a backOff call unless it fails below the bound. */
  lemma BackOffFirstReply(config: Config, replies: seq<ListReply>, failures: nat)
    requires failures < MaxAttempts
    ensures replies == [] ==> BackOff(config, replies, failures) == NoReplies
    ensures replies != [] && Succeeded(config, replies[0]) ==>
              BackOff(config, replies, failures) == Fetched(ListDeploymentsPerPage(config, replies[0]).value, 1)
    ensures replies != [] && !Succeeded(config, replies[0]) && failures + 1 == MaxAttempts ==>
              BackOff(config, replies, failures) == GaveUp(ListDeploymentsPerPage(config, replies[0]).error, 1)
  {
  }

  /** A failed attempt below the bound leads to one more attempt on the next reply. */
  lemma BackOffRetries(config: Config, replies: seq<ListReply>, failures: nat)
    requires replies != [] && !Succeeded(config, replies[0]) && failures + 1 < MaxAttempts
    ensures BackOff(config, replies, failures) == Added(BackOff(config, replies[1..], failures + 1), 1)
  {
  }

  lemma AddedTwice(f: Fetch, a: nat, b: nat)
    ensures Added(Added(f, a), b) == Added(f, a + b)
  {
  }

  /** A fetch with `k` more failed attempts in front of it. */
  function Added(f: Fetch, k: nat): Fetch {
    match f
    case Fetched(records, n) => Fetched(records, n + k)
    case GaveUp(e, n) => GaveUp(e, n + k)
    case NoReplies => NoReplies
  }

  /** How a listing run ends. */
  datatype Listing =
    | Complete(ids: seq<DeploymentId>)       // an empty page arrived: listAllDeployments returns ids
    | Aborted(page: nat, error: Error)       // backOff gave up: process.exit(1)
    | Unanswered(ids: seq<DeploymentId>)     // the script ran out first

  /** A run's outcome and the page number of every request it made, in order. */
  datatype ListRun = ListRun(listing: Listing, requests: seq<nat>)

  function Repeat(page: nat, n: nat): (s: seq<nat>)
    ensures |s| == n
    ensures forall i :: 0 <= i < n ==> s[i] == page
  {
    seq(n, _ => page)
  }

  /** The ids accumulated before a run continues are kept in front of what it adds. */
  function Prepend(ids: seq<DeploymentId>, listing: Listing): Listing {
    match listing
    case Complete(rest) => Complete(ids + rest)
    case Unanswered(rest) => Unanswered(ids + rest)
    case Aborted(_, _) => listing
  }

  /**
   * The listing loop from page `page` on: fetch the page through BackOff,
   * keep its ids, and move to the next page exactly when the page was
   * non-empty.
   */
  function Paginate(config: Config, replies: seq<ListReply>, page: nat): (r: ListRun)
    ensures |r.requests| <= |replies|
    ensures r.listing.Unanswered? ==> |r.requests| == |replies|
    decreases |replies|
  {
    match BackOff(config, replies, 0)
    case NoReplies => ListRun(Unanswered([]), Repeat(page, |replies|))
    case GaveUp(e, n) => ListRun(Aborted(page, e), Repeat(page, n))
    case Fetched(records, n) =>
      if |records| == 0 then ListRun(Complete([]), Repeat(page, n))
      else
        var rest := Paginate(config, replies[n..], page + 1);
        ListRun(Prepend(IdsOf(records), rest.listing), Repeat(page, n) + rest.requests)
  }

  /**
   * listAllDeployments as a run over a script of replies: it starts at page
   * 1, consumes one reply per request, and runs out of replies only after
   * consuming all of them.
   */
  function ListingRun(config: Config, replies: seq<ListReply>): (r: ListRun)
    ensures |r.requests| <= |replies|
    ensures r.listing.Unanswered? ==> |r.requests| == |replies|
  {
    Paginate(config, replies, 1)
  }

  /**
   * listAllDeployments: the `while (true)` loop over pages, which goes round
   * again exactly when the page just fetched was non-empty.  It returns the
   * listing and the page number of every request made, as the specification
   * ListingRun says.
   */
  method ListAllDeployments(config: Config, replies: seq<ListReply>) returns (listing: Listing, requests: seq<nat>)
    ensures ListRun(listing, requests) == ListingRun(config, replies)
  {
    var page := 1;
    var deploymentIds: seq<DeploymentId> := [];
    var pos := 0;
    requests := [];
    ghost var target := ListingRun(config, replies);
    assert replies[0..] == replies;
    var result := ListPageWithRetry(config, replies, pos);
    while result.Fetched? && |result.records| > 0
      invariant pos <= |replies|
      invariant result == BackOff(config, replies[pos..], 0)
      invariant target == Continued(deploymentIds, requests, Paginate(config, replies[pos..], page))
      decreases |replies| - pos
    {
      var records, n := result.records, result.attempts;
      NextPage(config, replies, pos, page, deploymentIds, requests, records, n, target);
      deploymentIds := PushIds(deploymentIds, records);
      requests := requests + Repeat(page, n);
      page := page + 1;
      pos := pos + n;
      result := ListPageWithRetry(config, replies, pos);
    }
    LastPage(config, replies, pos, page, deploymentIds, requests, target);
    match result {
      case NoReplies =>
        return Unanswered(deploymentIds), requests + Repeat(page, |replies| - pos);
      case GaveUp(e, n) =>
        return Aborted(page, e), requests + Repeat(page, n);
      case Fetched(_, n) =>
        return Complete(deploymentIds), requests + Repeat(page, n);
    }
  }

  /**
   * A non-empty page keeps the loop's invariant: its ids and requests move
   * from the rest of the run to what was collected.
   */
  lemma NextPage(config: Config, replies: seq<ListReply>, pos: nat, page: nat,
                 ids: seq<DeploymentId>, requests: seq<nat>, records: seq<Deployment>, n: nat, target: ListRun)
    requires pos <= |replies|
    requires BackOff(config, replies[pos..], 0) == Fetched(records, n) && |records| > 0
    requires target == Continued(ids, requests, Paginate(config, replies[pos..], page))
    ensures pos + n <= |replies|
    ensures target == Continued(ids + IdsOf(records), requests + Repeat(page, n), Paginate(config, replies[pos + n..], page + 1))
  {
    PaginateGoesOn(config, replies, pos, page);
    ContinuedStep(ids, requests, IdsOf(records), Repeat(page, n), Paginate(config, replies[pos + n..], page + 1));
  }

  /** A page request that does not lead to a next page ends the run with what was collected. */
  lemma LastPage(config: Config, replies: seq<ListReply>, pos: nat, page: nat,
                 ids: seq<DeploymentId>, requests: seq<nat>, target: ListRun)
    requires pos <= |replies|
    requires target == Continued(ids, requests, Paginate(config, replies[pos..], page))
    ensures var f := BackOff(config, replies[pos..], 0);
            (f.NoReplies? ==> target == ListRun(Unanswered(ids), requests + Repeat(page, |replies| - pos))) &&
            (f.GaveUp? ==> target == ListRun(Aborted(page, f.error), requests + Repeat(page, f.attempts))) &&
            (f.Fetched? && |f.records| == 0 ==> target == ListRun(Complete(ids), requests + Repeat(page, f.attempts)))
  {
    PaginateEnds(config, replies[pos..], page);
    assert ids + [] == ids;
  }

  /** A page request that does not lead to a next page ends the run. */
  lemma PaginateEnds(config: Config, replies: seq<ListReply>, page: nat)
    ensures var f := BackOff(config, replies, 0);
            var r := Paginate(config, replies, page);
            (f.NoReplies? ==> r == ListRun(Unanswered([]), Repeat(page, |replies|))) &&
            (f.GaveUp? ==> r == ListRun(Aborted(page, f.error), Repeat(page, f.attempts))) &&
            (f.Fetched? && |f.records| == 0 ==> r == ListRun(Complete([]), Repeat(page, f.attempts)))
  {
  }

  /** A non-empty page moves the run on to the next page, after the replies it consumed. */
  lemma PaginateGoesOn(config: Config, replies: seq<ListReply>, pos: nat, page: nat)
    requires pos <= |replies|
    requires BackOff(config, replies[pos..], 0).Fetched? && |BackOff(config, replies[pos..], 0).records| > 0
    ensures var f := BackOff(config, replies[pos..], 0);
            var rest := Paginate(config, replies[pos + f.attempts..], page + 1);
            Paginate(config, replies[pos..], page) ==
              ListRun(Prepend(IdsOf(f.records), rest.listing), Repeat(page, f.attempts) + rest.requests)
  {
    var f := BackOff(config, replies[pos..], 0);
    assert replies[pos..][f.attempts..] == replies[pos + f.attempts..];
  }

  /** `for (const deployment of result) deploymentIds.push(deployment.id)` */
  method PushIds(ids: seq<DeploymentId>, records: seq<Deployment>) returns (ids': seq<DeploymentId>)
    ensures ids' == ids + IdsOf(records)
  {
    ids' := ids;
    for k := 0 to |records|
      invariant ids' == ids + IdsOf(records[..k])
    {
      IdsOfSnoc(records, k);
      ids' := ids' + [records[k].id];
    }
    assert records[..|records|] == records;
  }

  lemma IdsOfSnoc(records: seq<Deployment>, k: nat)
    requires k < |records|
    ensures IdsOf(records[..k + 1]) == IdsOf(records[..k]) + [records[k].id]
  {
  }

  lemma ContinuedStep(ids: seq<DeploymentId>, requests: seq<nat>, more: seq<DeploymentId>, made: seq<nat>, rest: ListRun)
    ensures Continued(ids, requests, ListRun(Prepend(more, rest.listing), made + rest.requests))
         == Continued(ids + more, requests + made, rest)
  {
    assert requests + (made + rest.requests) == (requests + made) + rest.requests;
    match rest.listing {
      case Complete(r) => assert ids + (more + r) == (ids + more) + r;
      case Unanswered(r) => assert ids + (more + r) == (ids + more) + r;
      case Aborted(_, _) =>
    }
  }

  /** A run that continues after `ids` were collected and `requests` were made. */
  function Continued(ids: seq<DeploymentId>, requests: seq<nat>, r: ListRun): ListRun {
    ListRun(Prepend(ids, r.listing), requests + r.requests)
  }
}
