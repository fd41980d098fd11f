/** parseAllFeeds: every source's feed is parsed (each outcome settles on its own), the
    outcomes are folded into one status per source and one pool of articles, and the
    pool is sorted newest first, grouped by source, interleaved round-robin and given
    its hero. */
module Aggregator {
  import opened Types
  import opened SeqUtil
  import opened NewestFirst
  import opened RoundRobin
  import opened HeroSelector
  import RssParser

  /** The sort key: newest first by publication instant. */
  function PublishedAtOf(a: Article): int
  {
    a.publishedAt
  }

  /** The grouping key. */
  function SourceIdOf(a: Article): string
  {
    a.source.id
  }

  /** What each source settled to: its articles, or the reason it failed. */
  function Outcomes(sources: seq<FeedSource>, fetched: seq<Result<seq<RssParser.RawItem>, string>>, env: RssParser.Env)
    : (r: seq<Result<seq<Article>, string>>)
    requires |fetched| == |sources|
    ensures |r| == |sources|
  {
    seq(|sources|, k requires 0 <= k < |sources| => RssParser.ParseFeed(sources[k], fetched[k], env))
  }

  /** The articles of the fulfilled sources, concatenated in source order. */
  function Pool(outcomes: seq<Result<seq<Article>, string>>): seq<Article>
  {
    if outcomes == [] then []
    else
      var last := outcomes[|outcomes| - 1];
      Pool(outcomes[..|outcomes| - 1]) + (if last.Ok? then last.value else [])
  }

  /** The status record of one source. */
  function StatusOf(source: FeedSource, outcome: Result<seq<Article>, string>): SourceStatus
  {
    match outcome
    case Ok(articles) => SourceStatus(source.id, source.name, StatusOk, |articles|)
    case Err(_) => SourceStatus(source.id, source.name, StatusError, 0)
  }

  function Statuses(sources: seq<FeedSource>, outcomes: seq<Result<seq<Article>, string>>): seq<SourceStatus>
    requires |outcomes| == |sources|
  {
    seq(|sources|, k requires 0 <= k < |sources| => StatusOf(sources[k], outcomes[k]))
  }

  /** The total of the article counts. */
  function CountSum(statuses: seq<SourceStatus>): nat
  {
    if statuses == [] then 0
    else CountSum(statuses[..|statuses| - 1]) + statuses[|statuses| - 1].articleCount
  }

  /** The pool after sorting, grouping and interleaving, before the hero is chosen. */
  function Interleaved(pool: seq<Article>): seq<Article>
  {
    Interleave(Queues(GroupBy(SortNewestFirst(pool, PublishedAtOf), SourceIdOf)))
  }

  /** The articles parseAllFeeds returns. */
  function AggregateArticles(outcomes: seq<Result<seq<Article>, string>>, now: int): seq<Article>
  {
    HeroOrder(Interleaved(Pool(outcomes)), now)
  }

  /** The loop over the settled results: push each fulfilled source's articles onto
      the pool, and record one status per source. */
  method CollectResults(sources: seq<FeedSource>, results: seq<Result<seq<Article>, string>>)
    returns (pooled: seq<Article>, sourceStatuses: seq<SourceStatus>)
    requires |results| == |sources|
    ensures pooled == Pool(results)
    ensures sourceStatuses == Statuses(sources, results)
  {
    pooled := [];
    sourceStatuses := [];
    for k := 0 to |results|
      invariant pooled == Pool(results[..k])
      invariant sourceStatuses == Statuses(sources[..k], results[..k])
    {
      assert results[..k + 1][..k] == results[..k];
      match results[k]
      case Ok(parsed) =>
        pooled := pooled + parsed;
        sourceStatuses := sourceStatuses + [SourceStatus(sources[k].id, sources[k].name, StatusOk, |parsed|)];
      case Err(_) =>
        sourceStatuses := sourceStatuses + [SourceStatus(sources[k].id, sources[k].name, StatusError, 0)];
    }
    assert results[..|results|] == results;
    assert sources[..|sources|] == sources;
  }

  /** The ordering steps: the pool sorted in place, grouped by source, interleaved,
      and given its hero. */
  method OrderPool(pooled: seq<Article>, now: int) returns (articles: seq<Article>)
    ensures articles == HeroOrder(Interleaved(pooled), now)
  {
    var sortable := new Article[|pooled|](i requires 0 <= i < |pooled| => pooled[i]);
    assert sortable[..] == pooled;
    SortInPlace(sortable, PublishedAtOf);
    var bySource := GroupBySource(sortable[..], SourceIdOf);
    var interleaved := InterleaveQueues(Queues(bySource));
    articles := SelectHeroArticle(interleaved, now);
  }

  /** parseAllFeeds, once every source's fetch has settled. */
  method ParseAllFeeds(sources: seq<FeedSource>, fetched: seq<Result<seq<RssParser.RawItem>, string>>, env: RssParser.Env)
    returns (articles: seq<Article>, sourceStatuses: seq<SourceStatus>)
    requires |fetched| == |sources|
    ensures sourceStatuses == Statuses(sources, Outcomes(sources, fetched, env))
    ensures articles == AggregateArticles(Outcomes(sources, fetched, env), env.now)
  {
    var results := Outcomes(sources, fetched, env);
    var pooled;
    pooled, sourceStatuses := CollectResults(sources, results);
    articles := OrderPool(pooled, env.now);
  }

  // ---------------------------------------------------------------- properties

  /** One status per source, in source order: a failed source is an error with no
      articles, a fulfilled one is ok with the number of articles it gave. */
  lemma StatusesMatchSources(sources: seq<FeedSource>, outcomes: seq<Result<seq<Article>, string>>)
    requires |outcomes| == |sources|
    ensures |Statuses(sources, outcomes)| == |sources|
    ensures forall k :: 0 <= k < |sources| ==>
              var st := Statuses(sources, outcomes)[k];
              && st.id == sources[k].id && st.name == sources[k].name
              && (st.status == StatusError <==> outcomes[k].Err?)
              && (outcomes[k].Err? ==> st.articleCount == 0)
              && (outcomes[k].Ok? ==> st.articleCount == |outcomes[k].value|)
  {
  }

  /** The counts in the statuses add up to the size of the pool. */
  lemma {:induction false} CountsAddUpToPool(sources: seq<FeedSource>, outcomes: seq<Result<seq<Article>, string>>)
    requires |outcomes| == |sources|
    ensures CountSum(Statuses(sources, outcomes)) == |Pool(outcomes)|
    decreases |sources|
  {
    if sources != [] {
      var n := |sources| - 1;
      CountsAddUpToPool(sources[..n], outcomes[..n]);
      assert Statuses(sources, outcomes)[..n] == Statuses(sources[..n], outcomes[..n]);
    }
  }

  /** Every article of the pool comes out exactly once, and nothing else does. */
  lemma AggregateIsPermutation(outcomes: seq<Result<seq<Article>, string>>, now: int)
    ensures multiset(AggregateArticles(outcomes, now)) == multiset(Pool(outcomes))
  {
    var pool := Pool(outcomes);
    var sorted := SortNewestFirst(pool, PublishedAtOf);
    SortIsPermutation(pool, PublishedAtOf);
    GroupByIsPermutation(sorted, SourceIdOf);
    InterleaveIsPermutation(Queues(GroupBy(sorted, SourceIdOf)));
    SelectHeroArticleFacts(Interleaved(pool), now);
  }

  /** The queues of the grouping, labelled by their source ids. */
  lemma GroupsAreLabelled(sorted: seq<Article>)
    ensures Labelled(Queues(GroupBy(sorted, SourceIdOf)), Keys(GroupBy(sorted, SourceIdOf)), SourceIdOf)
  {
    var gs := GroupBy(sorted, SourceIdOf);
    GroupByKeysDistinctAndComplete(sorted, SourceIdOf);
    GroupByQueues(sorted, SourceIdOf);
    forall i | 0 <= i < |gs|
      ensures Keyed(Queues(gs)[i], Keys(gs)[i], SourceIdOf)
    {
      FilterMembers(sorted, HasKey(SourceIdOf, gs[i].key));
      forall n | 0 <= n < |gs[i].items|
        ensures SourceIdOf(gs[i].items[n]) == gs[i].key
      {
        assert HasKey(SourceIdOf, gs[i].key)(Filter(sorted, HasKey(SourceIdOf, gs[i].key))[n]);
      }
    }
  }

  /** An id with no group has no articles before or after interleaving. */
  lemma AbsentSourceHasNoArticles(pool: seq<Article>, id: string)
    requires id !in Keys(GroupBy(SortNewestFirst(pool, PublishedAtOf), SourceIdOf))
    ensures Filter(Interleaved(pool), HasKey(SourceIdOf, id)) == []
    ensures Filter(SortNewestFirst(pool, PublishedAtOf), HasKey(SourceIdOf, id)) == []
  {
    var sorted := SortNewestFirst(pool, PublishedAtOf);
    var qs := Queues(GroupBy(sorted, SourceIdOf));
    var p := HasKey(SourceIdOf, id);
    GroupByKeysDistinctAndComplete(sorted, SourceIdOf);
    FilterNone(sorted, p);
    var out := Interleaved(pool);
    GroupByIsPermutation(sorted, SourceIdOf);
    InterleaveIsPermutation(qs);
    assert multiset(out) == multiset(sorted);
    forall n | 0 <= n < |out|
      ensures !p(out[n])
    {
      assert out[n] in multiset(sorted);
      var m :| 0 <= m < |sorted| && sorted[m] == out[n];
    }
    FilterNone(out, p);
  }

  /** Before the hero is chosen, each source's articles appear exactly in the order the
      newest-first sort gave them, so newest first among themselves. */
  lemma InterleavedKeepsSourceOrder(pool: seq<Article>, id: string)
    ensures Filter(Interleaved(pool), HasKey(SourceIdOf, id))
              == Filter(SortNewestFirst(pool, PublishedAtOf), HasKey(SourceIdOf, id))
    ensures SortedDescending(Filter(Interleaved(pool), HasKey(SourceIdOf, id)), PublishedAtOf)
  {
    var sorted := SortNewestFirst(pool, PublishedAtOf);
    var gs := GroupBy(sorted, SourceIdOf);
    var p := HasKey(SourceIdOf, id);
    if id in Keys(gs) {
      var j :| 0 <= j < |gs| && Keys(gs)[j] == id;
      GroupsAreLabelled(sorted);
      GroupByQueues(sorted, SourceIdOf);
      InterleaveKeepsQueueOrder(Queues(gs), Keys(gs), SourceIdOf, j);
    } else {
      AbsentSourceHasNoArticles(pool, id);
    }
    SortIsSortedDescending(pool, PublishedAtOf);
    FilterKeepsSorted(sorted, p, PublishedAtOf);
  }

  /** The first round takes, for each source in the order its newest article first
      appears in the sorted pool, that source's newest article. */
  lemma FirstRoundTakesNewestOfEachSource(pool: seq<Article>)
    ensures var sorted := SortNewestFirst(pool, PublishedAtOf);
            var ids := FirstAppearances(KeysOf(sorted, SourceIdOf));
            && |ids| <= |Interleaved(pool)|
            && forall i :: 0 <= i < |ids| ==>
                 [Interleaved(pool)[i]] == HeadOf(Filter(sorted, HasKey(SourceIdOf, ids[i])))
  {
    var sorted := SortNewestFirst(pool, PublishedAtOf);
    var gs := GroupBy(sorted, SourceIdOf);
    var qs := Queues(gs);
    GroupByKeys(sorted, SourceIdOf);
    GroupByQueues(sorted, SourceIdOf);
    HeadsOfNonEmptyQueues(qs);
    if Flatten(qs) != [] {
      assert Interleaved(pool) == Heads(qs) + Interleave(Tails(qs));
    } else {
      RoundShrinks(qs);
      assert |qs| == 0;
    }
    forall i | 0 <= i < |gs|
      ensures Keys(gs)[i] == gs[i].key
    {
    }
  }
}
