/** The request headers and the paginated repository listing of the GitHub data fetcher. */
module RepoLister {
  import opened Wrappers
  import opened GitHubData

  /** Rows requested per page (`per_page=100`). */
  const PerPage: nat := 100

  const UserAgent := "ExceptionCoding-Portfolio/1.0"
  const AcceptMediaType := "application/vnd.github.v3+json"

  /** The headers of every API request. `token` is the `GITHUB_TOKEN` environment variable; it
      is sent, as `token <value>`, only when it is set to a non-empty string. */
  function Headers(token: Option<string>): (h: map<string, string>)
    ensures "User-Agent" in h && h["User-Agent"] == UserAgent
    ensures "Accept" in h && h["Accept"] == AcceptMediaType
    ensures "Authorization" in h <==> Truthy(token)
    ensures "Authorization" in h ==> h["Authorization"] == "token " + token.value
    ensures h.Keys <= {"User-Agent", "Accept", "Authorization"}
  {
    var base := map["User-Agent" := UserAgent, "Accept" := AcceptMediaType];
    if Truthy(token) then base["Authorization" := "token " + token.value] else base
  }

  /** What one page request yields: the parsed rows of a successful response, or the status of
      a response that was not ok (the request throws). */
  datatype PageResponse = Rows(rows: seq<RawRepo>) | Refused(status: int)

  /** The outcome of the whole listing: every row and the number of requests made (the
      requests are for pages 1 to `requests`), or the status and page of the request that
      aborted it. */
  datatype Listing = Listed(repos: seq<RawRepo>, requests: nat) | Aborted(status: int, requests: nat)

  /** A full page: the loop asks for the next one after it. */
  predicate Full(r: PageResponse) {
    r.Rows? && |r.rows| >= PerPage
  }

  /** The loop has no page cap of its own; the model is given a page `limit` from which on no
      page is full, so that the listing ends. */
  ghost predicate EndsBy(source: nat -> PageResponse, limit: nat) {
    forall p :: limit <= p ==> !Full(source(p))
  }

  /** The rows a response contributes, none when it was refused. */
  function RowsOf(r: PageResponse): seq<RawRepo> {
    if r.Rows? then r.rows else []
  }

  /** The rows of pages `from` .. `to - 1`, concatenated in page order. */
  function Pages(source: nat -> PageResponse, from: nat, to: nat): seq<RawRepo>
    decreases to - from
  {
    if to <= from then [] else RowsOf(source(from)) + Pages(source, from + 1, to)
  }

  /** Rows fetched before a listing continues in front of whatever it goes on to collect. */
  function Prepend(rows: seq<RawRepo>, l: Listing): Listing {
    match l
    case Listed(rest, n) => Listed(rows + rest, n)
    case Aborted(_, _) => l
  }

  /** Prepending twice is prepending the concatenation. */
  lemma PrependTwice(a: seq<RawRepo>, b: seq<RawRepo>, l: Listing)
    ensures Prepend(a, Prepend(b, l)) == Prepend(a + b, l)
  {
    if l.Listed? {
      assert a + (b + l.repos) == (a + b) + l.repos;
    }
  }

  /** The listing from page `page` on, as the loop performs it: stop on a refused request, on an
      empty page or on a page shorter than `PerPage`, otherwise keep the rows and go on. */
  function Collect(source: nat -> PageResponse, page: nat, limit: nat): (l: Listing)
    requires EndsBy(source, limit)
    ensures l.requests >= page
    decreases limit - page
  {
    match source(page)
    case Refused(status) => Aborted(status, page)
    case Rows(rows) =>
      if |rows| == 0 then Listed([], page)
      else if |rows| < PerPage then Listed(rows, page)
      else Prepend(rows, Collect(source, page + 1, limit))
  }

  /** `fetchPublicRepositories`: request pages 1, 2, ... and concatenate them until a page is
      empty or short; a refused request aborts the whole listing. */
  method FetchPublicRepositories(source: nat -> PageResponse, ghost limit: nat) returns (listing: Listing)
    requires EndsBy(source, limit)
    ensures listing == Collect(source, 1, limit)
  {
    var allRepos: seq<RawRepo> := [];
    var page: nat := 1;
    while true
      invariant page >= 1
      invariant Collect(source, 1, limit) == Prepend(allRepos, Collect(source, page, limit))
      decreases limit - page
    {
      var response := source(page);
      if response.Refused? {
        return Aborted(response.status, page);
      }
      var repos := response.rows;
      if |repos| == 0 {
        assert allRepos + [] == allRepos;
        return Listed(allRepos, page);
      }
      if |repos| < PerPage {
        return Listed(allRepos + repos, page);
      }
      PrependTwice(allRepos, repos, Collect(source, page + 1, limit));
      allRepos := allRepos + repos;
      page := page + 1;
    }
  }

  /** A listing ends with rows `rows` after request `n` exactly when pages `page` .. `n - 1` were
      full, page `n` came back with fewer than `PerPage` rows, and `rows` is the concatenation
      of pages `page` .. `n`. */
  lemma {:induction false} CollectListed(source: nat -> PageResponse, page: nat, limit: nat, rows: seq<RawRepo>, n: nat)
    requires EndsBy(source, limit)
    ensures Collect(source, page, limit) == Listed(rows, n) <==>
            && page <= n
            && (forall p :: page <= p < n ==> Full(source(p)))
            && source(n).Rows? && |source(n).rows| < PerPage
            && rows == Pages(source, page, n + 1)
    decreases limit - page
  {
    var r := source(page);
    if r.Rows? && |r.rows| >= PerPage {
      assert page < limit;
      var l := Collect(source, page + 1, limit);
      if l.Listed? {
        CollectListed(source, page + 1, limit, l.repos, l.requests);
        if page < n {
          assert Pages(source, page, n + 1) == r.rows + Pages(source, page + 1, n + 1);
          CollectListed(source, page + 1, limit, Pages(source, page + 1, n + 1), n);
        }
      } else if page < n {
        CollectListed(source, page + 1, limit, Pages(source, page + 1, n + 1), n);
      }
    } else if r.Rows? {
      assert Pages(source, page, page + 1) == r.rows;
    }
  }

  /** A listing is aborted with `status` at request `n` exactly when pages `page` .. `n - 1` were
      full and the request for page `n` was refused with `status`. */
  lemma {:induction false} CollectAborted(source: nat -> PageResponse, page: nat, limit: nat, status: int, n: nat)
    requires EndsBy(source, limit)
    ensures Collect(source, page, limit) == Aborted(status, n) <==>
            && page <= n
            && (forall p :: page <= p < n ==> Full(source(p)))
            && source(n) == Refused(status)
    decreases limit - page
  {
    var r := source(page);
    if r.Rows? && |r.rows| >= PerPage {
      assert page < limit;
      CollectAborted(source, page + 1, limit, status, n);
    }
  }

  /** The listing endpoint never returns more rows than `per_page` asks for. */
  ghost predicate HonoursPageSize(source: nat -> PageResponse) {
    forall p :: source(p).Rows? ==> |source(p).rows| <= PerPage
  }

  /** With a page-size-honouring endpoint every page before the last holds exactly `PerPage`
      rows, so the row count fixes the number of requests. */
  lemma {:induction false} ListedSize(source: nat -> PageResponse, page: nat, limit: nat)
    requires EndsBy(source, limit) && HonoursPageSize(source)
    requires Collect(source, page, limit).Listed?
    ensures var l := Collect(source, page, limit);
            source(l.requests).Rows? && |source(l.requests).rows| < PerPage &&
            |l.repos| == PerPage * (l.requests - page) + |source(l.requests).rows|
    decreases limit - page
  {
    var r := source(page);
    if r.Rows? && |r.rows| >= PerPage {
      assert page < limit;
      ListedSize(source, page + 1, limit);
    }
  }

  /** `n` rows take `n / PerPage + 1` requests: 250 rows take 3, an empty first page takes 1. */
  lemma RequestCount(source: nat -> PageResponse, limit: nat)
    requires EndsBy(source, limit) && HonoursPageSize(source)
    requires Collect(source, 1, limit).Listed?
    ensures var l := Collect(source, 1, limit);
            l.requests == |l.repos| / PerPage + 1
  {
    ListedSize(source, 1, limit);
  }

  /** An account with 250 repositories: two full pages and one of 50 rows. */
  function Pages250(sample: RawRepo): nat -> PageResponse {
    p => if p == 1 || p == 2 then Rows(seq(100, _ => sample))
         else if p == 3 then Rows(seq(50, _ => sample))
         else Rows([])
  }

  /** The 250 repositories are listed with exactly three requests. */
  lemma TwoHundredFiftyRows(sample: RawRepo)
    ensures EndsBy(Pages250(sample), 3)
    ensures Collect(Pages250(sample), 1, 3) == Listed(seq(250, _ => sample), 3)
  {
    var source := Pages250(sample);
    var hundred, fifty := seq(100, _ => sample), seq(50, _ => sample);
    assert Collect(source, 3, 3) == Listed(fifty, 3);
    assert Collect(source, 2, 3) == Listed(hundred + fifty, 3);
    assert Collect(source, 1, 3) == Listed(hundred + (hundred + fifty), 3);
    assert hundred + (hundred + fifty) == seq(250, _ => sample);
  }
}
