/**
 * What a listing run promises, stated over the replies it consumed: the
 * first |requests| replies of the script.
 */
module ListingProperties {
  import opened Wrappers
  import opened Api
  import opened Paginator

  /** The ids of a reply that was a page, as a one-element list; nothing for a failure. */
  function PageOf(config: Config, reply: ListReply): seq<seq<DeploymentId>> {
    match ListDeploymentsPerPage(config, reply)
    case Success(records) => [IdsOf(records)]
    case Failure(_) => []
  }

  /** The pages among some replies, each as the list of its ids, in the order received. */
  function FetchedPages(config: Config, replies: seq<ListReply>): seq<seq<DeploymentId>>
    decreases |replies|
  {
    if replies == [] then [] else PageOf(config, replies[0]) + FetchedPages(config, replies[1..])
  }

  function Flatten(pages: seq<seq<DeploymentId>>): seq<DeploymentId>
    decreases |pages|
  {
    if pages == [] then [] else pages[0] + Flatten(pages[1..])
  }

  lemma {:induction false} FlattenAppend(a: seq<seq<DeploymentId>>, b: seq<seq<DeploymentId>>)
    ensures Flatten(a + b) == Flatten(a) + Flatten(b)
    decreases |a|
  {
    if a == [] {
      assert a + b == b;
    } else {
      assert (a + b)[1..] == a[1..] + b;
      FlattenAppend(a[1..], b);
    }
  }

  lemma {:induction false} FetchedPagesAppend(config: Config, a: seq<ListReply>, b: seq<ListReply>)
    ensures FetchedPages(config, a + b) == FetchedPages(config, a) + FetchedPages(config, b)
    decreases |a|
  {
    if a == [] {
      assert a + b == b;
    } else {
      assert (a + b)[1..] == a[1..] + b;
      FetchedPagesAppend(config, a[1..], b);
    }
  }

  lemma {:induction false} FailuresFetchNothing(config: Config, replies: seq<ListReply>)
    requires AllFailed(config, replies)
    ensures FetchedPages(config, replies) == []
    decreases |replies|
  {
    if replies != [] {
      assert !Succeeded(config, replies[0]);
      FailuresFetchNothing(config, replies[1..]);
    }
  }

  /** The requests of one successful backOff call hold exactly one page: the one it returned. */
  lemma FetchedSegment(config: Config, replies: seq<ListReply>, records: seq<Deployment>, n: nat)
    requires BackOff(config, replies, 0) == Fetched(records, n)
    ensures FetchedPages(config, replies[..n]) == [IdsOf(records)]
  {
    BackOffOutcome(config, replies, 0);
    assert replies[..n] == replies[..n - 1] + [replies[n - 1]];
    FetchedPagesAppend(config, replies[..n - 1], [replies[n - 1]]);
    FailuresFetchNothing(config, replies[..n - 1]);
    assert [replies[n - 1]][1..] == [];
  }

  /**
   * A listing that did not abort holds the ids of every page received, in
   * order: the concatenation of the pages among the consumed replies.
   */
  lemma {:induction false} ListingIsConcatenation(config: Config, replies: seq<ListReply>, page: nat)
    ensures var r := Paginate(config, replies, page);
            !r.listing.Aborted? ==> r.listing.ids == Flatten(FetchedPages(config, replies[..|r.requests|]))
    decreases |replies|
  {
    var r := Paginate(config, replies, page);
    match BackOff(config, replies, 0) {
      case NoReplies =>
        BackOffOutcome(config, replies, 0);
        assert replies[..|r.requests|] == replies;
        FailuresFetchNothing(config, replies);
      case GaveUp(_, _) =>
      case Fetched(records, n) =>
        FetchedSegment(config, replies, records, n);
        if |records| == 0 {
          assert replies[..|r.requests|] == replies[..n];
          assert [IdsOf(records)][1..] == [];
        } else {
          var rest := Paginate(config, replies[n..], page + 1);
          ListingIsConcatenation(config, replies[n..], page + 1);
          assert r == ListRun(Prepend(IdsOf(records), rest.listing), Repeat(page, n) + rest.requests);
          if !rest.listing.Aborted? {
            ConcatenationStep(config, replies, records, n, |rest.requests|, rest.listing.ids);
          }
        }
    }
  }

  /** The ids of one fetched page, followed by those of the pages after it. */
  lemma ConcatenationStep(config: Config, replies: seq<ListReply>, records: seq<Deployment>, n: nat, m: nat,
                          later: seq<DeploymentId>)
    requires n + m <= |replies|
    requires FetchedPages(config, replies[..n]) == [IdsOf(records)]
    requires later == Flatten(FetchedPages(config, replies[n..][..m]))
    ensures IdsOf(records) + later == Flatten(FetchedPages(config, replies[..n + m]))
  {
    assert replies[..n + m] == replies[..n] + replies[n..][..m];
    FetchedPagesAppend(config, replies[..n], replies[n..][..m]);
    FlattenAppend([IdsOf(records)], FetchedPages(config, replies[n..][..m]));
    assert [IdsOf(records)][1..] == [];
  }

  /**
   * Pages are requested in order without gaps: request j asks for the
   * starting page plus the number of pages received before it, so a failed
   * request is repeated for the same page and a page received moves on by one.
   */
  predicate PagesInOrder(config: Config, replies: seq<ListReply>, page: nat, requests: seq<nat>) {
    |requests| <= |replies| &&
    forall j :: 0 <= j < |requests| ==> requests[j] == page + |FetchedPages(config, replies[..j])|
  }

  lemma {:induction false} RequestsFollowPages(config: Config, replies: seq<ListReply>, page: nat)
    ensures PagesInOrder(config, replies, page, Paginate(config, replies, page).requests)
    decreases |replies|
  {
    var r := Paginate(config, replies, page);
    BackOffOutcome(config, replies, 0);
    match BackOff(config, replies, 0) {
      case NoReplies =>
        assert r == ListRun(Unanswered([]), Repeat(page, |replies|));
        assert replies[..|replies|] == replies;
        FirstRequests(config, replies, page, |replies|, |replies|, r.requests);
      case GaveUp(e, n) =>
        assert r == ListRun(Aborted(page, e), Repeat(page, n));
        FirstRequests(config, replies, page, n, n, r.requests);
      case Fetched(records, n) =>
        FirstRequests(config, replies, page, n - 1, n, Repeat(page, n));
        if |records| == 0 {
          assert r == ListRun(Complete([]), Repeat(page, n));
        } else {
          var rest := Paginate(config, replies[n..], page + 1);
          RequestsFollowPages(config, replies[n..], page + 1);
          assert r == ListRun(Prepend(IdsOf(records), rest.listing), Repeat(page, n) + rest.requests);
          FetchedSegment(config, replies, records, n);
          RequestsAfterPage(config, replies, page, records, n, rest.requests, r.requests);
        }
    }
  }

  /** Requests made while no page has arrived all ask for the first page. */
  lemma FirstRequests(config: Config, replies: seq<ListReply>, page: nat, failed: nat, k: nat, requests: seq<nat>)
    requires failed <= |replies| && AllFailed(config, replies[..failed])
    requires k <= failed + 1 && k <= |replies|
    requires requests == Repeat(page, k)
    ensures PagesInOrder(config, replies, page, requests)
  {
    forall j | 0 <= j < k
      ensures requests[j] == page + |FetchedPages(config, replies[..j])|
    {
      NothingBeforeFirstPage(config, replies, failed, j);
    }
  }

  /** One page after failures, then requests that follow the pages from the next page on. */
  lemma RequestsAfterPage(config: Config, replies: seq<ListReply>, page: nat, records: seq<Deployment>, n: nat,
                          later: seq<nat>, requests: seq<nat>)
    requires 0 < n <= |replies|
    requires PagesInOrder(config, replies, page, Repeat(page, n))
    requires FetchedPages(config, replies[..n]) == [IdsOf(records)]
    requires PagesInOrder(config, replies[n..], page + 1, later)
    requires requests == Repeat(page, n) + later
    ensures PagesInOrder(config, replies, page, requests)
  {
    forall j | 0 <= j < |requests|
      ensures requests[j] == page + |FetchedPages(config, replies[..j])|
    {
      if j < n {
        assert requests[j] == Repeat(page, n)[j];
      } else {
        assert requests[j] == later[j - n];
        OnePageThenRest(config, replies, records, n, j);
      }
    }
  }

  lemma NothingBeforeFirstPage(config: Config, replies: seq<ListReply>, failed: nat, j: nat)
    requires failed <= |replies| && AllFailed(config, replies[..failed]) && j <= failed
    ensures FetchedPages(config, replies[..j]) == []
  {
    assert replies[..j] == replies[..failed][..j];
    FailuresFetchNothing(config, replies[..j]);
  }

  lemma OnePageThenRest(config: Config, replies: seq<ListReply>, records: seq<Deployment>, n: nat, j: nat)
    requires n <= j <= |replies| && FetchedPages(config, replies[..n]) == [IdsOf(records)]
    ensures FetchedPages(config, replies[..j]) == [IdsOf(records)] + FetchedPages(config, replies[n..][..j - n])
  {
    assert replies[..j] == replies[..n] + replies[n..][..j - n];
    FetchedPagesAppend(config, replies[..n], replies[n..][..j - n]);
  }

  /**
   * Listing ends on an empty page and on nothing else: no reply before the
   * last one consumed is an empty page, and the run is complete exactly when
   * the last one is.  A non-empty page of any size leads to another request.
   */
  predicate StopsAtEmptyPage(config: Config, replies: seq<ListReply>, r: ListRun) {
    var n := |r.requests|;
    n <= |replies| &&
    (forall j :: 0 <= j < n - 1 ==> !EmptyPage(config, replies[j])) &&
    (r.listing.Complete? <==> n > 0 && EmptyPage(config, replies[n - 1]))
  }

  lemma {:induction false} StopsOnlyAtEmptyPage(config: Config, replies: seq<ListReply>, page: nat)
    ensures StopsAtEmptyPage(config, replies, Paginate(config, replies, page))
    decreases |replies|
  {
    var r := Paginate(config, replies, page);
    BackOffOutcome(config, replies, 0);
    match BackOff(config, replies, 0) {
      case NoReplies =>
        assert r == ListRun(Unanswered([]), Repeat(page, |replies|));
        assert replies[..|replies|] == replies;
        FailuresAreNotEmptyPages(config, replies, |replies|);
      case GaveUp(e, n) =>
        assert r == ListRun(Aborted(page, e), Repeat(page, n));
        FailuresAreNotEmptyPages(config, replies, n);
      case Fetched(records, n) =>
        FailuresAreNotEmptyPages(config, replies, n - 1);
        if |records| == 0 {
          assert r == ListRun(Complete([]), Repeat(page, n));
        } else {
          var rest := Paginate(config, replies[n..], page + 1);
          StopsOnlyAtEmptyPage(config, replies[n..], page + 1);
          assert r == ListRun(Prepend(IdsOf(records), rest.listing), Repeat(page, n) + rest.requests);
          StopsAfterPage(config, replies, n, rest, r);
        }
    }
  }

  /** A non-empty page after failures, then a run that stops only at an empty page. */
  lemma StopsAfterPage(config: Config, replies: seq<ListReply>, n: nat, rest: ListRun, r: ListRun)
    requires 0 < n <= |replies|
    requires forall j :: 0 <= j < n - 1 ==> !EmptyPage(config, replies[j])
    requires Succeeded(config, replies[n - 1]) && !EmptyPage(config, replies[n - 1])
    requires StopsAtEmptyPage(config, replies[n..], rest)
    requires |r.requests| == n + |rest.requests|
    requires r.listing.Complete? <==> rest.listing.Complete?
    ensures StopsAtEmptyPage(config, replies, r)
  {
    var m := |rest.requests|;
    NoEmptyPagesAfter(config, replies, n, m);
  }

  lemma NoEmptyPagesAfter(config: Config, replies: seq<ListReply>, n: nat, m: nat)
    requires n + m <= |replies|
    requires forall j :: 0 <= j < m - 1 ==> !EmptyPage(config, replies[n..][j])
    ensures forall j :: n <= j < n + m - 1 ==> !EmptyPage(config, replies[j])
    ensures m > 0 ==> replies[n + m - 1] == replies[n..][m - 1]
  {
    forall j | n <= j < n + m - 1
      ensures !EmptyPage(config, replies[j])
    {
      assert replies[j] == replies[n..][j - n];
    }
  }

  lemma FailuresAreNotEmptyPages(config: Config, replies: seq<ListReply>, k: nat)
    requires k <= |replies| && AllFailed(config, replies[..k])
    ensures forall j :: 0 <= j < k ==> !Succeeded(config, replies[j]) && !EmptyPage(config, replies[j])
  {
    forall j | 0 <= j < k
      ensures !Succeeded(config, replies[j])
    {
      assert replies[j] == replies[..k][j];
    }
  }

  /** Requests j to j + MaxAttempts - 1 were made and all of them failed. */
  predicate FailedRun(config: Config, replies: seq<ListReply>, j: nat) {
    j + MaxAttempts <= |replies| && AllFailed(config, replies[j..j + MaxAttempts])
  }

  /**
   * The attempt bound, said of a run's requests: the run aborted exactly
   * when its last MaxAttempts requests all failed, and no other
   * MaxAttempts requests in a row all failed.
   */
  predicate AttemptBounded(config: Config, replies: seq<ListReply>, r: ListRun) {
    var n := |r.requests|;
    n <= |replies| &&
    (r.listing.Aborted? <==> n >= MaxAttempts && FailedRun(config, replies, n - MaxAttempts)) &&
    (forall j: nat :: j + MaxAttempts <= n && FailedRun(config, replies, j) ==> j + MaxAttempts == n)
  }

  /**
   * A page is requested at most MaxAttempts times: MaxAttempts failures in a
   * row end the run, and the run aborts exactly when its last MaxAttempts
   * requests all failed.
   */
  lemma {:induction false} AbortsAfterMaxAttempts(config: Config, replies: seq<ListReply>, page: nat)
    ensures AttemptBounded(config, replies, Paginate(config, replies, page))
    decreases |replies|
  {
    var r := Paginate(config, replies, page);
    BackOffOutcome(config, replies, 0);
    match BackOff(config, replies, 0) {
      case NoReplies =>
        assert |r.requests| < MaxAttempts;
      case GaveUp(e, n) =>
        assert r == ListRun(Aborted(page, e), Repeat(page, n));
        assert replies[0..MaxAttempts] == replies[..n];
      case Fetched(records, n) =>
        if |records| == 0 {
          assert r == ListRun(Complete([]), Repeat(page, n));
          if n == MaxAttempts {
            WindowThroughPage(config, replies, n, 0);
          }
        } else {
          var rest := Paginate(config, replies[n..], page + 1);
          AbortsAfterMaxAttempts(config, replies[n..], page + 1);
          assert r == ListRun(Prepend(IdsOf(records), rest.listing), Repeat(page, n) + rest.requests);
          AbortsAfterPage(config, replies, n, rest, r);
        }
    }
  }

  /** The step of AbortsAfterMaxAttempts past a received page, on the requests alone. */
  lemma AbortsAfterPage(config: Config, replies: seq<ListReply>, n: nat, rest: ListRun, r: ListRun)
    requires 0 < n <= MaxAttempts && n <= |replies| && Succeeded(config, replies[n - 1])
    requires AttemptBounded(config, replies[n..], rest)
    requires |r.requests| == n + |rest.requests| && (r.listing.Aborted? <==> rest.listing.Aborted?)
    ensures AttemptBounded(config, replies, r)
  {
    var m := |rest.requests|;
    forall j: nat | j + MaxAttempts <= n + m && FailedRun(config, replies, j)
      ensures j + MaxAttempts == n + m
    {
      if j < n {
        WindowThroughPage(config, replies, n, j);
      } else {
        ShiftFailedRun(config, replies, n, j);
      }
    }
    if n + m >= MaxAttempts {
      if n + m - MaxAttempts >= n {
        ShiftFailedRun(config, replies, n, n + m - MaxAttempts);
      } else {
        WindowThroughPage(config, replies, n, n + m - MaxAttempts);
      }
    }
  }

  /** A window of MaxAttempts requests that includes a received page did not all fail. */
  lemma WindowThroughPage(config: Config, replies: seq<ListReply>, n: nat, j: nat)
    requires 0 < n <= |replies| && Succeeded(config, replies[n - 1])
    requires j < n <= j + MaxAttempts
    ensures !FailedRun(config, replies, j)
  {
    if j + MaxAttempts <= |replies| {
      assert replies[j..j + MaxAttempts][n - 1 - j] == replies[n - 1];
    }
  }

  lemma ShiftFailedRun(config: Config, replies: seq<ListReply>, n: nat, j: nat)
    requires n <= j && n <= |replies|
    ensures FailedRun(config, replies, j) <==> FailedRun(config, replies[n..], j - n)
  {
    if j + MaxAttempts <= |replies| {
      assert replies[n..][j - n..j - n + MaxAttempts] == replies[j..j + MaxAttempts];
    }
  }

  /**
   * After k failed attempts below the bound, backOff goes on as a call on the
   * remaining replies that already counts k failures, plus those k attempts.
   */
  lemma {:induction false} RetriesUpTo(config: Config, replies: seq<ListReply>, k: nat)
    requires k < MaxAttempts && k <= |replies|
    requires forall j :: 0 <= j < k ==> !Succeeded(config, replies[j])
    ensures BackOff(config, replies, 0) == Added(BackOff(config, replies[k..], k), k)
    decreases k
  {
    assert replies[0..] == replies;
    if k == 0 {
      AddedNothing(BackOff(config, replies, 0));
    } else {
      RetriesUpTo(config, replies, k - 1);
      RetryStep(config, replies, 0, k - 1);
    }
  }

  lemma AddedNothing(f: Fetch)
    ensures Added(f, 0) == f
  {
  }

  /**
   * Retrying is invisible to the caller: fewer than MaxAttempts failures
   * before a page arrives change nothing in the listing, and only add
   * repeated requests for the same page.
   */
  lemma RetryIsTransparent(config: Config, failures: seq<ListReply>, rest: seq<ListReply>, page: nat)
    requires |failures| < MaxAttempts && AllFailed(config, failures)
    requires rest != [] && Succeeded(config, rest[0])
    ensures Paginate(config, failures + rest, page).listing == Paginate(config, rest, page).listing
    ensures Paginate(config, failures + rest, page).requests
         == Repeat(page, |failures|) + Paginate(config, rest, page).requests
  {
    var k := |failures|;
    var all := failures + rest;
    forall j | 0 <= j < k
      ensures !Succeeded(config, all[j])
    {
      assert all[j] == failures[j];
    }
    RetriesUpTo(config, all, k);
    assert all[k..] == rest && all[0..] == all && rest[0..] == rest;
    BackOffFirstReply(config, rest, k);
    BackOffFirstReply(config, rest, 0);
    var records := ListDeploymentsPerPage(config, rest[0]).value;
    assert BackOff(config, all, 0) == Fetched(records, k + 1);
    PaginateEnds(config, all, page);
    PaginateEnds(config, rest, page);
    var later := Paginate(config, rest[1..], page + 1);
    if |records| > 0 {
      PaginateGoesOn(config, all, 0, page);
      PaginateGoesOn(config, rest, 0, page);
      assert all[k + 1..] == rest[1..];
    }
    SameAfterFetch(page, k, Paginate(config, all, page), Paginate(config, rest, page), records, later);
  }

  /** The same fetched page and the same rest of the run, reached after k more failed requests. */
  lemma SameAfterFetch(page: nat, k: nat, x: ListRun, y: ListRun, records: seq<Deployment>, later: ListRun)
    requires |records| == 0 ==>
               x == ListRun(Complete([]), Repeat(page, k + 1)) && y == ListRun(Complete([]), Repeat(page, 1))
    requires |records| > 0 ==>
               x == ListRun(Prepend(IdsOf(records), later.listing), Repeat(page, k + 1) + later.requests) &&
               y == ListRun(Prepend(IdsOf(records), later.listing), Repeat(page, 1) + later.requests)
    ensures x.listing == y.listing && x.requests == Repeat(page, k) + y.requests
  {
    assert Repeat(page, k + 1) == Repeat(page, k) + Repeat(page, 1);
    if |records| > 0 {
      assert Repeat(page, k + 1) + later.requests == Repeat(page, k) + (Repeat(page, 1) + later.requests);
    }
  }
}
