# clean-cf-pages, the deployment cleanup workflow

clean-cf-pages deletes old deployments of a Cloudflare Pages project. Only
the live (production) deployment is kept. Its `run` function does four
things in order:

1. It checks that the API token, account id and project name are all set.
2. It reads the project metadata to learn which deployment is live.
3. It lists every deployment, page by page (`per_page=10`). Each page is
   attempted at most five times (one try and up to four retries). The
   listing stops at the first empty page.
4. It sends a DELETE for every listed deployment except the live one.
   Each failure is caught and logged, and the pass goes on.

This project models that workflow in Dafny and proves what it promises.

The remote API appears only as inputs:
- the metadata reply is one value;
- the listing replies are a finite script, consumed one reply per request;
- the DELETE replies come from a function of the request URL.

A reply is either `NoResponse` (the request or its JSON decoding failed)
or an envelope `{success, errors, result}`.

Modules:
- `Wrappers`: `Option`, `Result` and `Outcome`.
- `Api`: the configuration, envelopes, records and errors.
- `Urls`: the three request URLs, and what can be read back from them.
- `Resolver`: `getProductionDeploymentId`.
- `Paginator`: `listDeploymentsPerPage`, the five-attempt `backOff` and
  `listAllDeployments`. Each is written as a specification function, and
  the two loops are methods proved equal to their functions.
- `ListingProperties`: what a listing run promises about the replies it
  consumed.
- `Deletion`: `deleteDeployment` and the deletion loop of `main`.
- `Cleanup`: `main`. It returns how the run ended and the trace of every
  request it sent.

## Model

| member | source | states |
|---|---|---|
| Api.FirstError | lib.ts:30-31 | The error thrown for an unsuccessful envelope is the first reported message. With no message it is the malformed-list error. |
| Urls.NatToString | lib.ts:61 | `${page}` is a non-empty string of decimal digits. |
| Urls.ParseNatToString | lib.ts:61 | A page number interpolated into a URL reads back as the same number. |
| Urls.ProjectUrl | lib.ts:22-23 | The project resource URL built from the account id and project name. When neither name contains `?` or `#`, the URL has no query string and no fragment. |
| Urls.ListUrl | lib.ts:60-61 | A listing URL's query string is exactly `per_page=10&page=<page>`, with no fragment after it, and the page number reads back unchanged. |
| Urls.DeleteUrl | lib.ts:41-46 | A delete URL has a query string if and only if deleteAliasedDeployments is set. That query string is exactly `force=true`. Without the flag the URL is the bare deployment path. |
| Urls.DeleteUrlInjective | lib.ts:45-46 | Under one configuration, distinct ids get distinct delete URLs. |
| Resolver.GetProductionDeploymentId | lib.ts:21-38 | The result is an id if and only if the reply arrived, its success flag is set and its canonical id is non-empty; the id returned is that canonical id. Otherwise: a missing reply is a fetch failure; success false fails with the first error; a falsy id fails with the missing-production-id error. |
| Paginator.ListDeploymentsPerPage | lib.ts:59-72 | A reply gives a page if and only if it arrived with success set; the page is the reply's result. An unsuccessful envelope fails with "could not fetch deployments for <project>". |
| Paginator.BackOff | lib.ts:81-90 | A backOff call with `numOfAttempts: 5`, entered after some failed attempts, makes at least one attempt, one reply each, and never more than the attempts left. It gives up only after using every attempt left. It runs out of replies only when fewer replies than attempts left remain. |
| Paginator.BackOffOutcome | lib.ts:81-96 | A backOff run returns the first successful page, preceded only by failures. It gives up only after MaxAttempts (5) failures in a row, rethrowing the last one. |
| Paginator.ListPageWithRetry | lib.ts:81-90 | The attempt-by-attempt retry loop returns exactly what the backOff specification returns for the replies from its position on. |
| Paginator.Paginate | lib.ts:74-109 | The listing loop from a given page on consumes at most one reply per request, and runs out of replies only after consuming all of them. |
| Paginator.ListingRun | lib.ts:74-109 | listAllDeployments starts the same loop at page 1, with the same bounds on the replies it consumes. |
| Paginator.PushIds | lib.ts:98-100 | Pushing a page's records leaves the earlier ids in front and appends the page's ids in the order received. |
| Paginator.ListAllDeployments | lib.ts:74-109 | The `while (true)` page loop returns the listing and the page number of every request, exactly as the specification ListingRun defines them. |
| ListingProperties.ListingIsConcatenation | lib.ts:98-107 | A listing that did not abort is the in-order concatenation of the ids of every page received among the consumed replies. |
| ListingProperties.RequestsFollowPages | lib.ts:75-103 | Request j asks for the starting page plus the number of pages received before it: pages go 1, 2, 3, ... with no gap, and a failed request is retried for the same page. |
| ListingProperties.StopsOnlyAtEmptyPage | lib.ts:102-106 | No reply before the last consumed one is an empty page. The listing completes if and only if the last consumed reply is an empty page, so any non-empty page, however short, leads to another request. |
| ListingProperties.AbortsAfterMaxAttempts | lib.ts:81-95 | A run aborts if and only if its last five requests all failed. No other five requests in a row all failed, so each page is requested at most five times. |
| ListingProperties.RetriesUpTo | lib.ts:81-90 | After k failed attempts, fewer than five, backOff continues on the remaining replies with k failures already counted, and adds k attempts to its result. |
| ListingProperties.RetryIsTransparent | lib.ts:81-90 | Fewer than five failures before a page arrives leave the listing unchanged. They only add repeated requests for the same page. |
| Deletion.DeleteDeployment | lib.ts:40-57 | One DELETE goes to the id's delete URL. It succeeds if and only if the reply arrived with success set; otherwise the caught error is the first reported message, or a fetch failure. |
| Deletion.Handle | lib.ts:139-147 | One iteration of the pass: the production id is skipped, and any other id gets exactly one delete attempt. |
| Deletion.DeleteAllExcept | lib.ts:138-149 | The pass gives one event per listed id. Event i depends on id i alone: skipped if it is the production id, otherwise one delete attempt, whatever earlier deletes answered. |
| Deletion.Without | lib.ts:138-141 | Removing the production id keeps every other id exactly as often as it was listed. |
| Deletion.DeletesAllButProduction | lib.ts:138-148 | The ids sent a DELETE are the listed ids with every occurrence of the production id removed, in list order, one request per occurrence. The production id is never sent. |
| Deletion.DeleteRequestsFollowFlag | lib.ts:41-46 | No DELETE of a pass goes to the production deployment's URL. Every DELETE carries `force=true` as its whole query string when the force flag is set, and no query string otherwise. |
| Cleanup.CheckConfig | lib.ts:112-128 | The configuration passes if and only if all three strings are non-empty. Otherwise the error is for the first empty one, in the order token, account, project. |
| Cleanup.Run | lib.ts:111-150 | A configuration error is thrown before any request. A failed resolution is thrown after the metadata request alone. An aborted or unanswered listing ends after its page requests, with no DELETE. A complete listing leads to the deletion pass over exactly the listed ids, and the trace is the metadata request, the page requests, then the pass's DELETEs. |
| Cleanup.DeleteRequestTargets | lib.ts:138-143 | Every DELETE of a pass targets a listed id other than the production id, never the production deployment's URL. |
| Cleanup.NoDeleteUnlessListed | lib.ts:136-143 | In a trace of the shape Run produces, a listing that did not complete means no DELETE was sent. Every DELETE sent comes after a complete listing and is not the production deployment's. |

## Left out

- `fetch`, the Authorization header and JSON decoding are network I/O. A reply is an input, and a request that rejects, or a body that cannot be decoded, is `NoResponse`.
- The delays are left out: the exponential delays inside the backoff library (1 s, 2 s, 4 s, ...) and the 500 ms sleeps after each page and each delete. They only affect timing; the attempt bound is kept.
- `console.log` and `console.warn` output is left out.
- `process.exit(1)` after the retries are exhausted is modelled as the `Aborted` / `ListingAborted` outcome, not as process control.
- async/await, and the fact that `main()` is not awaited, are left out: once the remote is a set of inputs, the workflow is sequential.
- cli.ts (argument parsing and environment-variable fallback) is not part of this model. Its only logic, the presence checks, is repeated in `main` and modelled as `Cleanup.CheckConfig`.
- Paginator.ListAllDeployments: a remote that never sends an empty page makes the source request pages forever. The model's script of replies is finite, so such a run ends as `Unanswered` with the ids gathered so far.
- Resolver.GetProductionDeploymentId: a successful envelope whose `canonical_deployment` is null makes the source throw a TypeError when it reads `.id`. The model reports it as `MissingProductionId`, like a falsy id.
- Api.FirstError: an unsuccessful envelope with an empty `errors` list makes the source throw a TypeError when it reads `errors[0].message`. The model names that case `MalformedErrorList`.
- Urls.ProjectUrl: the absence of a query string and fragment is proved only for account and project names without `?` or `#`. Otherwise a query string or a fragment would start inside the path.
- Urls.DeleteUrl: the query string is proved only for account and project names and ids without `?` or `#`, for the same reason. A `#` in one of them would move `?force=true` into the fragment.
- Urls.ListUrl: the query string is proved only for account and project names without `?` or `#`, for the same reason.
- Deletion.DeleteRequestsFollowFlag: the query-string half is proved only for account and project names and listed ids without `?` or `#`, as for Urls.DeleteUrl.
- URL parsing is modelled only as far as the query string goes: the part between the first `?` and the first `#`. Percent-encoding and the rest of URL syntax are not modelled.
- Deletion.DeleteDeployment: a DELETE reply is a function of its URL, so two deletes of the same id get the same reply.
- Page numbers are unbounded integers. The source's page counter is a JavaScript number that would lose precision beyond 2^53 pages.
