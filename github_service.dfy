/**
 * `GitHubService` of js/script.js. The network is replaced by the replies it
 * would give: `Reply` is what `fetch` resolves to (or that it rejects), with
 * the parsed JSON body and the text of the `Link` header.
 */
module GitHubService {
  import opened Wrappers
  import opened Text
  import opened Repos
  import opened Cache
  import opened Paging

  const ApiBase: string := "https://api.github.com/users"

  /** The page size the starred-count formula assumes. */
  const StarredPerPage: nat := 50

  /** What `response.json()` yields: a value, or a rejection with the parser's message. */
  datatype Body<D> = Parsed(value: D) | Malformed(reason: string)

  /** A response (`ok`, `status`, body, `Link` header), or a `fetch` that rejects. */
  datatype Reply<D> =
    | Answered(ok: bool, status: nat, body: Body<D>, link: Option<string>)
    | Unreachable(reason: string)

  /** What the service throws: its own `HTTP error!` error, or an error it passes on. */
  datatype Failure = HttpError(status: nat) | Thrown(message: string)
  {
    /** The `message` of the thrown `Error`. */
    function Message(): string
    {
      match this
      case HttpError(status) => "HTTP error! " + Decimal(status)
      case Thrown(message) => message
    }
  }

  /** A reply the service takes a body from: `ok` and parsable. */
  predicate Delivers<D>(reply: Reply<D>)
  {
    reply.Answered? && reply.ok && reply.body.Parsed?
  }

  /** What the service throws on a reply it cannot take a body from. */
  function FailureOf<D>(reply: Reply<D>): (f: Failure)
    requires !Delivers(reply)
    ensures f.HttpError? <==> reply.Answered? && !reply.ok
    ensures f.HttpError? ==> f.status == reply.status
    ensures reply.Unreachable? ==> f == Thrown(reply.reason)
    ensures reply.Answered? && reply.ok ==> f == Thrown(reply.body.reason)
  {
    match reply
    case Unreachable(reason) => Thrown(reason)
    case Answered(ok, status, body, _) =>
      if !ok then HttpError(status) else Thrown(body.reason)
  }

  /** `response.headers.get('Link')?.includes('rel="next"')`. */
  predicate HasNextRel(link: Option<string>)
  {
    link.Some? && Contains(link.value, "rel=\"next\"")
  }

  /**
   * A missing header announces no next page; a header announces one exactly
   * when `rel="next"` is written in it at some position.
   */
  lemma NextRelWhereWritten(link: Option<string>)
    ensures link.None? ==> !HasNextRel(link)
    ensures link.Some? ==> (HasNextRel(link) <==> exists i: nat :: OccursAt(link.value, "rel=\"next\"", i))
  {
    if link.Some? {
      var s, t := link.value, "rel=\"next\"";
      if HasNextRel(link) {
        var i :| 0 <= i <= |s| && StartsWith(s[i..], t);
        assert s[i..i + |t|] == s[i..][..|t|];
        assert OccursAt(s, t, i);
      }
      if exists i: nat :: OccursAt(s, t, i) {
        var i: nat :| OccursAt(s, t, i);
        ContainsAt(s, t, i);
      }
    }
  }

  /** The storage key of a URL: the URL behind a fixed `gh-cache-` prefix. */
  function CacheKey(url: string): (k: string)
    ensures |k| == |url| + 9
    ensures k[..9] == "gh-cache-" && k[9..] == url
  {
    "gh-cache-" + url
  }

  /** Different URLs are cached under different keys. */
  lemma CacheKeyInjective(u: string, v: string)
    requires CacheKey(u) == CacheKey(v)
    ensures u == v
  {
    assert u == CacheKey(u)[9..];
  }

  function UserUrl(user: string): string
  {
    ApiBase + "/" + user
  }

  function ReposPageUrl(user: string, page: nat): string
  {
    ApiBase + "/" + user + "/repos?page=" + Decimal(page) + "&per_page=100"
  }

  /** The URLs of pages 1 to `n`, in order. */
  function PageUrls(user: string, n: nat): (r: seq<string>)
    ensures |r| == n
    ensures forall i :: 0 <= i < n ==> r[i] == ReposPageUrl(user, i + 1)
  {
    if n == 0 then [] else PageUrls(user, n - 1) + [ReposPageUrl(user, n)]
  }

  /**
   * `fetchWithCache`: a valid cache entry is returned without a request;
   * otherwise the reply is consulted, and a delivered body is stored under
   * `gh-cache-<url>` and returned. The clock is read twice: `now` when the
   * entry is checked, `written` when the body has arrived and is stored.
   */
  method FetchWithCache<D>(store: Store<D>, url: string, now: int, written: int, reply: Reply<D>)
    returns (r: Result<D, Failure>, fetched: bool)
    modifies store
    ensures var cached := Lookup(old(store.items), CacheKey(url));
      if IsValid(cached, now) then
        && !fetched
        && r == Ok(cached.value.data)
        && store.items == old(store.items)
      else
        && fetched
        && (Delivers(reply) ==>
              && r == Ok(reply.body.value)
              && store.items == old(store.items)[CacheKey(url) := Entry(reply.body.value, written)])
        && (!Delivers(reply) ==> r == Err(FailureOf(reply)) && store.items == old(store.items))
  {
    var cacheKey := CacheKey(url);
    var cached := store.Get(cacheKey);
    if IsValid(cached, now) {
      return Ok(cached.value.data), false;
    }
    fetched := true;
    if !Delivers(reply) {
      return Err(FailureOf(reply)), fetched;
    }
    var data := reply.body.value;
    store.Set(cacheKey, data, written);
    r := Ok(data);
  }

  /** `fetchUserData`: the account, through the cache. */
  method FetchUserData<D>(store: Store<D>, user: string, now: int, written: int, reply: Reply<D>)
    returns (r: Result<D, Failure>, fetched: bool)
    modifies store
    ensures var key := CacheKey(UserUrl(user));
      var cached := Lookup(old(store.items), key);
      if IsValid(cached, now) then
        && !fetched
        && r == Ok(cached.value.data)
        && store.items == old(store.items)
      else
        && fetched
        && (Delivers(reply) ==>
              && r == Ok(reply.body.value)
              && store.items == old(store.items)[key := Entry(reply.body.value, written)])
        && (!Delivers(reply) ==> r == Err(FailureOf(reply)) && store.items == old(store.items))
  {
    r, fetched := FetchWithCache(store, UserUrl(user), now, written, reply);
  }

  /** The body of a page, when there is one. */
  function BodyOf(reply: Reply<seq<Repo>>): seq<Repo>
  {
    if reply.Answered? && reply.body.Parsed? then reply.body.value else []
  }

  /** The bodies of the first `n` replies, in order, one after the other. */
  function Bodies(replies: seq<Reply<seq<Repo>>>, n: nat): seq<Repo>
    requires n <= |replies|
  {
    if n == 0 then [] else Bodies(replies, n - 1) + BodyOf(replies[n - 1])
  }

  /**
   * Concatenation keeps each page in its place: the items of page `i + 1`
   * come right after those of pages 1 to `i`, and later pages only append.
   */
  lemma {:induction false} BodiesInOrder(replies: seq<Reply<seq<Repo>>>, i: nat, n: nat)
    requires i < n <= |replies|
    ensures var before := |Bodies(replies, i)|;
      && before + |BodyOf(replies[i])| <= |Bodies(replies, n)|
      && Bodies(replies, n)[..before] == Bodies(replies, i)
      && Bodies(replies, n)[before..before + |BodyOf(replies[i])|] == BodyOf(replies[i])
  {
    var before := |Bodies(replies, i)|;
    var page := BodyOf(replies[i]);
    if n == i + 1 {
      assert Bodies(replies, n) == Bodies(replies, i) + page;
    } else {
      BodiesInOrder(replies, i, n - 1);
      var prefix := Bodies(replies, n - 1);
      var whole := prefix + BodyOf(replies[n - 1]);
      assert Bodies(replies, n) == whole;
      assert whole[..before] == prefix[..before];
      assert whole[before..before + |page|] == prefix[before..before + |page|];
    }
  }

  /** A page after which the loop asks for the next one. */
  predicate Continues(reply: Reply<seq<Repo>>)
  {
    Delivers(reply) && HasNextRel(reply.link)
  }

  /** The first `n` replies all lead to a further request. */
  predicate AllContinue(replies: seq<Reply<seq<Repo>>>, n: nat)
    requires n <= |replies|
  {
    forall j :: 0 <= j < n ==> Continues(replies[j])
  }

  /** When the first `n` replies continue and some reply stops, there is an `n + 1`st reply. */
  lemma ContinuesFurther(replies: seq<Reply<seq<Repo>>>, n: nat)
    requires exists k :: 0 <= k < |replies| && !Continues(replies[k])
    requires 1 <= n <= |replies| && AllContinue(replies, n - 1) && Continues(replies[n - 1])
    ensures n < |replies| && AllContinue(replies, n)
  {
    var k :| 0 <= k < |replies| && !Continues(replies[k]);
    assert n <= k;
  }

  /**
   * `fetchRepos`: `replies[i]` answers the request for page `i + 1`. Pages are
   * requested in order until one is not delivered (its failure is thrown) or
   * has no `rel="next"` (the bodies so far are returned, concatenated).
   * The account's answers end somewhere: some reply stops the loop.
   */
  method FetchRepos(user: string, replies: seq<Reply<seq<Repo>>>)
    returns (r: Result<seq<Repo>, Failure>, urls: seq<string>)
    requires exists k :: 0 <= k < |replies| && !Continues(replies[k])
    ensures 1 <= |urls| <= |replies|
    ensures urls == PageUrls(user, |urls|)
    ensures forall j :: 0 <= j < |urls| - 1 ==> Continues(replies[j])
    ensures !Continues(replies[|urls| - 1])
    ensures r.Ok? <==> Delivers(replies[|urls| - 1])
    ensures r.Ok? ==> r.value == Bodies(replies, |urls|)
    ensures r.Err? ==> r.error == FailureOf(replies[|urls| - 1])
  {
    var repos: seq<Repo> := [];
    var page: nat := 1;
    var hasMore := true;
    urls := [];
    while hasMore
      invariant 1 <= page <= |replies| + 1
      invariant |urls| == page - 1
      invariant urls == PageUrls(user, page - 1)
      invariant hasMore ==> AllContinue(replies, page - 1) && page <= |replies|
      invariant !hasMore ==> 2 <= page && AllContinue(replies, page - 2)
      invariant !hasMore ==> Delivers(replies[page - 2]) && !HasNextRel(replies[page - 2].link)
      invariant repos == Bodies(replies, page - 1)
      decreases |replies| - (page - 1)
    {
      var reply := replies[page - 1];
      urls := urls + [ReposPageUrl(user, page)];
      if !Delivers(reply) {
        return Err(FailureOf(reply)), urls;
      }
      repos := repos + reply.body.value;
      hasMore := HasNextRel(reply.link);
      if hasMore {
        ContinuesFurther(replies, page);
      }
      page := page + 1;
    }
    r := Ok(repos);
  }

  /** The body of the starred response, as far as `data.length` sees it. */
  datatype StarredBody =
    | Items(length: nat)   // an array (or any value with a numeric `length`)
    | Lengthless           // a value without `length`: `data.length` is `undefined`
    | Unparsable           // `response.json()` rejects, or yields `null` (`data.length` throws)

  /** What `getTotalStarredCount` resolves to: a number, `'N/A'`, `undefined` or `NaN`. */
  datatype StarCount = Count(n: int) | NotAvailable | Undefined | NotANumber

  /** A header value that is neither absent nor empty. */
  predicate Truthy(link: Option<string>)
  {
    link.Some? && link.value != ""
  }

  /**
   * `getTotalStarredCount`. `lastPageMatch` is the number captured by
   * `/page=(\d+)>; rel="last"/` in the header (`None` when it does not match).
   */
  function GetTotalStarredCount(link: Option<string>, lastPageMatch: Option<nat>, body: StarredBody)
    : (c: StarCount)
    ensures c == NotAvailable <==> body == Unparsable
    ensures body.Items? && (!Truthy(link) || lastPageMatch.None?) ==> c == Count(body.length)
    ensures body.Items? && Truthy(link) && lastPageMatch.Some? ==>
              c == Count((lastPageMatch.value - 1) * StarredPerPage + body.length)
    ensures body == Lengthless ==> c == (if Truthy(link) && lastPageMatch.Some? then NotANumber else Undefined)
  {
    match body
    case Unparsable => NotAvailable
    case Lengthless =>
      if Truthy(link) && lastPageMatch.Some? then NotANumber else Undefined
    case Items(length) =>
      if !Truthy(link) then Count(length)
      else if lastPageMatch.Some? then Count((lastPageMatch.value - 1) * StarredPerPage + length)
      else Count(length)
  }

  /** Number of items on page `page` (from 1). */
  function PageLength(total: nat, perPage: nat, page: nat): (n: nat)
    requires perPage > 0 && 1 <= page
    ensures n <= perPage
  {
    if (page - 1) * perPage >= total then 0
    else if total - (page - 1) * perPage < perPage then total - (page - 1) * perPage
    else perPage
  }

  /**
   * The count shown for an account with `total` starred repositories, when
   * the API serves `perPage` to a page and announces a last page in `Link`
   * only when there is more than one page: the formula applied to the first
   * page, which is the one `fetchStarred` requests.
   */
  function StarredCountAsWritten(total: nat, perPage: nat): StarCount
    requires perPage > 0
  {
    var pages := PageCount(total, perPage);
    var link := if pages > 1 then Some("<" + ApiBase + "?page=" + Decimal(pages) + ">; rel=\"last\"") else None;
    var lastPage := if pages > 1 then Some(pages) else None;
    GetTotalStarredCount(link, lastPage, Items(PageLength(total, perPage, 1)))
  }

  /** On a single page the formula is right. */
  lemma StarredCountOnOnePage(total: nat, perPage: nat)
    requires 0 < perPage && total <= perPage
    ensures StarredCountAsWritten(total, perPage) == Count(total)
  {
    if total > 0 {
      DivIsOne(total + perPage - 1, perPage);
      assert PageCount(total, perPage) == 1;
    }
  }

  lemma DivIsOne(x: nat, d: nat)
    requires 0 < d <= x < 2 * d
    ensures x / d == 1
  {
  }

  /**
   * With 60 starred repositories the formula shows 100 if the API pages by
   * 50 and 80 if it pages by its default of 30; the account has 60.
   */
  lemma StarredCountAsWrittenOvercounts()
    ensures StarredCountAsWritten(60, 50) == Count(100)
    ensures StarredCountAsWritten(60, 30) == Count(80)
  {
    assert PageCount(60, 50) == 2 && PageLength(60, 50, 1) == 50;
    assert PageCount(60, 30) == 2 && PageLength(60, 30, 1) == 30;
  }

  /**
   * The count the formula is meant to give: full pages before the last one,
   * at the page size the request asked for, plus the items of the last page.
   */
  function IntendedStarredCount(lastPage: Option<nat>, lastPageLength: nat, perPage: nat): nat
  {
    match lastPage
    case None => lastPageLength
    case Some(p) => if p == 0 then lastPageLength else (p - 1) * perPage + lastPageLength
  }

  /** For every account and page size, the intended formula gives the exact total. */
  lemma IntendedStarredCountExact(total: nat, perPage: nat)
    requires perPage > 0
    ensures var pages := PageCount(total, perPage);
      IntendedStarredCount(if pages > 1 then Some(pages) else None,
                           PageLength(total, perPage, if pages > 1 then pages else 1),
                           perPage) == total
  {
    var pages := PageCount(total, perPage);
    if pages > 1 {
      assert (pages - 1) * perPage < total;
      assert total - (pages - 1) * perPage <= perPage by {
        assert total <= pages * perPage;
        assert pages * perPage == (pages - 1) * perPage + perPage;
      }
    }
  }
}
