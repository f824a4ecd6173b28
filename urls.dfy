/**
 * The three request URLs the workflow builds by string interpolation, and
 * what can be read back from them: the page number of a listing request and
 * the force parameter of a delete request.
 */
module Urls {
  import opened Wrappers
  import opened Api

  const ApiBase := "https://api.cloudflare.com/client/v4"
  const ListQuery := "per_page=10&page="
  const ForceParam := "?force=true"

  predicate IsDigit(ch: char) {
    '0' <= ch <= '9'
  }

  function DigitChar(d: nat): (ch: char)
    requires d < 10
    ensures IsDigit(ch)
  {
    ('0' as int + d) as char
  }

  function DigitValue(ch: char): nat {
    if IsDigit(ch) then ch as int - '0' as int else 0
  }

  /** `${n}` for a page number: its decimal digits, most significant first. */
  function NatToString(n: nat): (s: string)
    ensures |s| > 0
    ensures forall i :: 0 <= i < |s| ==> IsDigit(s[i])
    decreases n
  {
    if n < 10 then [DigitChar(n)] else NatToString(n / 10) + [DigitChar(n % 10)]
  }

  /** Reads a string of decimal digits back as a number. */
  function ParseNat(s: string): nat
    decreases |s|
  {
    if s == [] then 0 else 10 * ParseNat(s[..|s| - 1]) + DigitValue(s[|s| - 1])
  }

  /** Printing a page number loses nothing: parsing it gives the number back. */
  lemma {:induction false} ParseNatToString(n: nat)
    ensures ParseNat(NatToString(n)) == n
    decreases n
  {
    var s := NatToString(n);
    if n >= 10 {
      ParseNatToString(n / 10);
      assert s[..|s| - 1] == NatToString(n / 10);
    }
  }

  /**
   * The part of s before its first '#': a URL parser reads everything from
   * the first '#' on as the fragment.
   */
  function BeforeFragment(s: string): (r: string)
    ensures '#' !in r
    ensures |r| <= |s| && r == s[..|r|]
    ensures |r| < |s| ==> s[|r|] == '#'
    ensures '#' !in s ==> r == s
    decreases |s|
  {
    if s == [] || s[0] == '#' then []
    else
      assert s[0] in s && forall c :: c in s[1..] ==> c in s;
      [s[0]] + BeforeFragment(s[1..])
  }

  /**
   * The query string of a URL: what lies between its first '?' and its
   * fragment.  A URL whose first '?' falls inside the fragment, or that has
   * no '?', has no query string.
   */
  function QueryOf(url: string): (q: Option<string>)
    ensures q.None? <==> '?' !in BeforeFragment(url)
    ensures q.Some? ==> '#' !in q.value && |q.value| < |url|
    ensures '?' !in url ==> q.None?
    decreases |url|
  {
    if url == [] || url[0] == '#' then None
    else if url[0] == '?' then Some(BeforeFragment(url[1..]))
    else
      assert BeforeFragment(url) == [url[0]] + BeforeFragment(url[1..]);
      assert forall c :: c in url[1..] ==> c in url;
      QueryOf(url[1..])
  }

  /** A path segment without '?' or '#' leaves the query string to what follows it. */
  lemma {:induction false} QueryAfterPath(path: string, rest: string)
    requires '?' !in path && '#' !in path
    ensures QueryOf(path + rest) == QueryOf(rest)
  {
    if path == [] {
      assert path + rest == rest;
    } else {
      assert path[0] in path;
      assert (path + rest)[0] == path[0];
      assert (path + rest)[1..] == path[1..] + rest;
      QueryAfterPath(path[1..], rest);
    }
  }

  /** A string with neither '?' nor '#': interpolated into a path, it stays inside the path. */
  predicate InPath(s: string) {
    '?' !in s && '#' !in s
  }

  lemma InPathJoin(a: string, b: string)
    ensures InPath(a + b) <==> InPath(a) && InPath(b)
  {
    assert forall c :: c in a + b <==> c in a || c in b;
  }

  /** The fixed parts of the request paths carry neither '?' nor '#'. */
  lemma ApiBaseInPath()
    ensures InPath(ApiBase)
  {
  }

  lemma SegmentsInPath()
    ensures InPath("/accounts/") && InPath("/pages/projects/")
    ensures InPath("/deployments") && InPath("/deployments/")
  {
  }

  /** The account and project names interpolated into every path stay inside it. */
  predicate PathSafe(config: Config) {
    InPath(config.accountId) && InPath(config.projectName)
  }

  /**
   * A path followed by '?' and a query without '#': the query string read
   * back is exactly that query.
   */
  lemma QueryAfterMark(path: string, query: string)
    ensures InPath(path) && '#' !in query ==> QueryOf(path + ("?" + query)) == Some(query)
  {
    if InPath(path) && '#' !in query {
      var rest := "?" + query;
      QueryAfterPath(path, rest);
      assert rest[0] == '?' && rest[1..] == query;
      assert QueryOf(rest) == Some(BeforeFragment(query));
    }
  }

  /** `?force=true` is a query mark followed by a query without a fragment. */
  lemma ForceParamIsQuery()
    ensures ForceParam == "?" + "force=true" && '#' !in "force=true"
  {
  }

  /** The project resource: with path-safe names it has no query string and no fragment. */
  function ProjectUrl(config: Config): (u: string)
    ensures PathSafe(config) ==> InPath(u)
  {
    var accounts := ApiBase + "/accounts/";
    var projects := accounts + config.accountId + "/pages/projects/";
    ApiBaseInPath();
    SegmentsInPath();
    InPathJoin(ApiBase, "/accounts/");
    InPathJoin(accounts, config.accountId);
    InPathJoin(accounts + config.accountId, "/pages/projects/");
    InPathJoin(projects, config.projectName);
    projects + config.projectName
  }

  /**
   * The listing request for a page.  With path-safe names its query string
   * is exactly `per_page=10&page=<page>`, and the page number reads back
   * unchanged.
   */
  function ListUrl(config: Config, page: nat): (u: string)
    ensures PathSafe(config) ==> QueryOf(u) == Some(ListQuery + NatToString(page))
    ensures PathSafe(config) ==> RequestedPage(u) == Some(page)
  {
    var path := ProjectUrl(config) + "/deployments";
    var query := ListQuery + NatToString(page);
    SegmentsInPath();
    assert '#' !in ListQuery;
    assert '#' !in query by {
      forall i | 0 <= i < |query| ensures query[i] != '#' {
        if i >= |ListQuery| {
          assert query[i] == NatToString(page)[i - |ListQuery|];
        }
      }
    }
    assert query[..|ListQuery|] == ListQuery && query[|ListQuery|..] == NatToString(page);
    QueryAfterMark(path, query);
    ParseNatToString(page);
    path + ("?" + query)
  }

  function DeploymentUrl(config: Config, id: DeploymentId): (u: string)
    ensures PathSafe(config) && InPath(id) ==> InPath(u)
  {
    SegmentsInPath();
    ProjectUrl(config) + "/deployments/" + id
  }

  /**
   * deleteDeployment's URL: `?force=true` is appended when aliased
   * deployments may go.  With path-safe names and id, the URL has a query
   * string exactly when the flag is set, and it is then `force=true`;
   * without the flag the URL is the bare deployment path.
   */
  function DeleteUrl(config: Config, id: DeploymentId): (u: string)
    ensures PathSafe(config) && InPath(id) ==>
              QueryOf(u) == if config.deleteAliasedDeployments then Some("force=true") else None
    ensures config.deleteAliasedDeployments <==> u != DeploymentUrl(config, id)
  {
    var path := DeploymentUrl(config, id);
    var params := if config.deleteAliasedDeployments then ForceParam else "";
    ForceParamIsQuery();
    QueryAfterMark(path, "force=true");
    path + params
  }

  /** The page number a listing URL asks for, read back from its query string. */
  function RequestedPage(url: string): Option<nat> {
    match QueryOf(url)
    case None => None
    case Some(q) =>
      if |q| >= |ListQuery| && q[..|ListQuery|] == ListQuery
      then Some(ParseNat(q[|ListQuery|..]))
      else None
  }

  /** Under one configuration, different deployments are deleted through different URLs. */
  lemma DeleteUrlInjective(config: Config, a: DeploymentId, b: DeploymentId)
    ensures DeleteUrl(config, a) == DeleteUrl(config, b) ==> a == b
  {
    var p := ProjectUrl(config) + "/deployments/";
    var q := if config.deleteAliasedDeployments then ForceParam else "";
    assert DeleteUrl(config, a) == p + a + q;
    assert DeleteUrl(config, b) == p + b + q;
    if DeleteUrl(config, a) == DeleteUrl(config, b) {
      assert (p + a + q)[|p|..|p| + |a|] == a;
      assert (p + b + q)[|p|..|p| + |b|] == b;
    }
  }
}
