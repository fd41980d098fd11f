/** GET /api/feeds: read the category and the limit from the query string, answer from
    the feed cache when its entry for the category is fresh, and otherwise aggregate
    the category's sources, store the full result in the cache and answer with its
    first `limit` articles. The fetch of each source's feed and the clock are
    parameters. */
module FeedRoute {
  import opened Types
  import opened JsText
  import FeedSources
  import FeedCache
  import RssParser
  import Aggregator

  /** The default and the cap of the `limit` parameter. */
  const MaxArticles: int := 300

  /** The text the `limit` parameter defaults to. */
  const DefaultLimitParam: string := "300"

  /** `searchParams.get('category') || 'all'`: a missing or empty parameter means 'all';
      any other string is used as it is. */
  function RequestCategory(param: Option<string>): (c: string)
    ensures param.None? || param.value == "" ==> c == "all"
    ensures param.Some? && param.value != "" ==> c == param.value
    ensures c != ""
  {
    if param.None? || param.value == "" then "all" else param.value
  }

  /** The cache key of a category. */
  function CacheKey(category: string): string
  {
    "feed-" + category
  }

  /** `Math.min(parseInt(searchParams.get('limit') || '300', 10), 300)`, with None for
      NaN. */
  function RequestLimit(param: Option<string>): (r: Option<int>)
    ensures r.Some? ==> r.value <= MaxArticles
  {
    var text := if param.None? || param.value == "" then DefaultLimitParam else param.value;
    match ParseInt(text)
    case None => None
    case Some(v) => Some(if v < MaxArticles then v else MaxArticles)
  }

  /** How many articles `articles.slice(0, limit)` keeps, as the route is written: a
      negative limit counts from the end of the list. */
  function SliceCountAsWritten(total: nat, limit: Option<int>): (n: nat)
    ensures n <= total
  {
    SliceEnd(total, limit)
  }

  /** How many articles the response carries: NaN keeps none, as in the route, and a
      negative limit keeps none instead of counting from the end. */
  function ResponseCount(total: nat, limit: Option<int>): (n: nat)
    ensures n <= total
    ensures limit.Some? && limit.value >= 0 ==> n == SliceCountAsWritten(total, limit)
    ensures limit.None? || limit.value <= 0 ==> n == 0
    ensures limit.Some? && limit.value > 0 ==> n <= limit.value
  {
    match limit
    case None => 0
    case Some(v) => if v <= 0 then 0 else if v < total then v else total
  }

  /** What each of the category's sources gave when fetched. */
  function Fetched(sources: seq<FeedSource>, fetch: FeedSource -> Result<seq<RssParser.RawItem>, string>)
    : (r: seq<Result<seq<RssParser.RawItem>, string>>)
    ensures |r| == |sources|
  {
    seq(|sources|, k requires 0 <= k < |sources| => fetch(sources[k]))
  }

  /** The articles and statuses of a fresh aggregation of the category's sources. */
  function FreshFeed(category: string, fetch: FeedSource -> Result<seq<RssParser.RawItem>, string>, env: RssParser.Env)
    : (seq<Article>, seq<SourceStatus>)
  {
    var sources := FeedSources.GetSourcesByCategory(category);
    var outcomes := Aggregator.Outcomes(sources, Fetched(sources, fetch), env);
    (Aggregator.AggregateArticles(outcomes, env.now), Aggregator.Statuses(sources, outcomes))
  }

  /** The response and the cache after one request. */
  function Serve(entries: map<string, FeedCache.CacheEntry>, categoryParam: Option<string>, limitParam: Option<string>,
                 fetch: FeedSource -> Result<seq<RssParser.RawItem>, string>, env: RssParser.Env)
    : (r: (FeedResponse, map<string, FeedCache.CacheEntry>))
    ensures var key := CacheKey(RequestCategory(categoryParam));
            && key in r.1
            && var stored := r.1[key];
            && |r.0.articles| == ResponseCount(|stored.articles|, RequestLimit(limitParam))
            && r.0.articles == stored.articles[..|r.0.articles|]
            && r.0.sources == stored.sources
            && r.0.lastUpdated == stored.timestamp
            && |r.0.articles| <= MaxArticles
    ensures var key := CacheKey(RequestCategory(categoryParam));
            FeedCache.Lookup(entries, key, env.now).Some? ==> r.1 == entries
    ensures var key := CacheKey(RequestCategory(categoryParam));
            var feed := FreshFeed(RequestCategory(categoryParam), fetch, env);
            FeedCache.Lookup(entries, key, env.now).None? ==>
              r.1 == entries[key := FeedCache.CacheEntry(feed.0, env.now, feed.1)]
  {
    var category := RequestCategory(categoryParam);
    var limit := RequestLimit(limitParam);
    var key := CacheKey(category);
    match FeedCache.Lookup(entries, key, env.now)
    case Some(cached) =>
      var n := ResponseCount(|cached.articles|, limit);
      (FeedResponse(cached.articles[..n], cached.timestamp, cached.sources), entries)
    case None =>
      var feed := FreshFeed(category, fetch, env);
      var n := ResponseCount(|feed.0|, limit);
      (FeedResponse(feed.0[..n], env.now, feed.1), entries[key := FeedCache.CacheEntry(feed.0, env.now, feed.1)])
  }

  /** The route handler over a cache object. */
  method Get(cache: FeedCache.Cache, categoryParam: Option<string>, limitParam: Option<string>,
             fetch: FeedSource -> Result<seq<RssParser.RawItem>, string>, env: RssParser.Env)
    returns (response: FeedResponse)
    modifies cache
    ensures (response, cache.entries) == Serve(old(cache.entries), categoryParam, limitParam, fetch, env)
  {
    var category := RequestCategory(categoryParam);
    var limit := RequestLimit(limitParam);
    var key := CacheKey(category);
    var cached := cache.GetCachedFeed(key, env.now);
    if cached.Some? {
      var n := ResponseCount(|cached.value.articles|, limit);
      return FeedResponse(cached.value.articles[..n], cached.value.timestamp, cached.value.sources);
    }
    var sources := FeedSources.GetSourcesByCategory(category);
    var articles, sourceStatuses := Aggregator.ParseAllFeeds(sources, Fetched(sources, fetch), env);
    cache.SetCachedFeed(key, articles, sourceStatuses, env.now);
    var n := ResponseCount(|articles|, limit);
    response := FeedResponse(articles[..n], env.now, sourceStatuses);
  }

  // ---------------------------------------------------------------- properties

  /** Without a `limit` parameter, or with an empty one, the limit is 300. */
  lemma DefaultLimit(param: Option<string>)
    requires param.None? || param.value == ""
    ensures RequestLimit(param) == Some(300)
  {
    DefaultLimitParses();
  }

  lemma DefaultLimitParses()
    ensures ParseInt(DefaultLimitParam) == Some(300)
  {
    ParseIntOfDigits(DefaultLimitParam);
    DefaultLimitDigits();
  }

  lemma DefaultLimitDigits()
    ensures DigitsValue(DefaultLimitParam) == 300
  {
    assert "300"[..2] == "30";
    assert "30"[..1] == "3";
    assert "3"[..0] == "";
  }

  /** A non-empty parameter that parses to `v` gives `v`, capped. */
  lemma LimitOfParsed(param: Option<string>, v: int)
    requires param.Some? && param.value != "" && ParseInt(param.value) == Some(v)
    ensures RequestLimit(param) == Some(if v < MaxArticles then v else MaxArticles)
  {
  }

  /** A decimal limit is honoured up to the cap. */
  lemma DecimalLimit(n: nat)
    ensures RequestLimit(Some(DecimalString(n))) == Some(if n < 300 then n else 300)
  {
    ParseIntOfDecimal(n);
    LimitOfParsed(Some(DecimalString(n)), n);
  }

  /** A limit with no digits in it is NaN, and the response then has no articles. */
  lemma NonNumericLimitServesNothing(entries: map<string, FeedCache.CacheEntry>, categoryParam: Option<string>,
                                     text: string, fetch: FeedSource -> Result<seq<RssParser.RawItem>, string>,
                                     env: RssParser.Env)
    requires text != []
    requires forall i :: 0 <= i < |text| ==> !IsDigit(text[i])
    ensures RequestLimit(Some(text)) == None
    ensures Serve(entries, categoryParam, Some(text), fetch, env).0.articles == []
  {
    ParseIntWithoutDigits(text);
  }

  /** A fresh aggregation is stored whole, whatever the limit; a second request for the
      same category within the TTL is answered from it, without fetching, with the same
      statuses and the time of the first request. */
  lemma RepeatWithinTtlIsServedFromCache(entries: map<string, FeedCache.CacheEntry>, categoryParam: Option<string>,
                                         limit1: Option<string>, limit2: Option<string>,
                                         fetch1: FeedSource -> Result<seq<RssParser.RawItem>, string>,
                                         fetch2: FeedSource -> Result<seq<RssParser.RawItem>, string>,
                                         env1: RssParser.Env, env2: RssParser.Env)
    requires FeedCache.Lookup(entries, CacheKey(RequestCategory(categoryParam)), env1.now).None?
    requires env1.now <= env2.now <= env1.now + FeedCache.CacheTtl
    ensures var first := Serve(entries, categoryParam, limit1, fetch1, env1);
            var second := Serve(first.1, categoryParam, limit2, fetch2, env2);
            var feed := FreshFeed(RequestCategory(categoryParam), fetch1, env1);
            && first.1[CacheKey(RequestCategory(categoryParam))].articles == feed.0
            && second.1 == first.1
            && second.0.articles == feed.0[..|second.0.articles|]
            && second.0.sources == feed.1
            && second.0.lastUpdated == env1.now
  {
  }

  /** A category string no source has yields an empty response with no statuses, and
      that empty result is cached. */
  lemma UnknownCategoryServesNothing(entries: map<string, FeedCache.CacheEntry>, category: string,
                                     limitParam: Option<string>,
                                     fetch: FeedSource -> Result<seq<RssParser.RawItem>, string>, env: RssParser.Env)
    requires category != "" && category != "all"
    requires forall c: Category :: c.Name() != category
    requires FeedCache.Lookup(entries, CacheKey(category), env.now).None?
    ensures var r := Serve(entries, Some(category), limitParam, fetch, env);
            && r.0 == FeedResponse([], env.now, [])
            && r.1[CacheKey(category)] == FeedCache.CacheEntry([], env.now, [])
  {
    var sources := FeedSources.GetSourcesByCategory(category);
    FeedSources.UnknownCategoryHasNoSources(category);
    var outcomes := Aggregator.Outcomes(sources, Fetched(sources, fetch), env);
    assert outcomes == [];
    Aggregator.AggregateIsPermutation(outcomes, env.now);
  }

  /** The route as written: a negative limit `-n` passes the cap and `slice` then drops
      only `n` articles from the end. With all 31 sources each giving 10 articles,
      `?limit=-1` (n = 1) answers with 309 of the 310. */
  lemma NegativeLimitPassesCap(n: nat, total: nat)
    requires n >= 1
    ensures RequestLimit(Some("-" + DecimalString(n))) == Some(-(n as int))
    ensures SliceCountAsWritten(total, RequestLimit(Some("-" + DecimalString(n)))) == if total > n then total - n else 0
    ensures ResponseCount(total, RequestLimit(Some("-" + DecimalString(n)))) == 0
  {
    ParseIntOfNegDecimal(n);
    LimitOfParsed(Some("-" + DecimalString(n)), -(n as int));
  }

  /** With the corrected count, no response is ever longer than the cap, and a
      non-negative limit keeps exactly what the route as written keeps. */
  lemma ResponseNeverExceedsCap(total: nat, limitParam: Option<string>)
    ensures ResponseCount(total, RequestLimit(limitParam)) <= MaxArticles
    ensures var limit := RequestLimit(limitParam);
            limit.Some? && limit.value >= 0 ==> ResponseCount(total, limit) == SliceCountAsWritten(total, limit)
  {
  }
}
