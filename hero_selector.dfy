/** Choice of the hero article: each of the first 30 articles is scored from its source's
    priority, keyword matches, image and age, and the first best one is moved to the
    front. The weights 1.5, 3, 2, 1.5, 0.5 and 1 are all doubled, so totals are integers
    twice the original ones and every comparison between totals is unchanged. */
module HeroSelector {
  import opened Types
  import opened Patterns
  import opened FeedSources

  const HourMs: int := 3600000

  /** Only this many leading articles are candidates. */
  const CandidateLimit: nat := 30

  /** getRecencyScore: `ageHours < k` is `ageMs < k * HourMs`, with ageMs = now - publishedAt. */
  function RecencyScore(publishedAt: int, now: int): (r: int)
    ensures r == 10 || r == 9 || r == 8 || r == 7 || r == 5 || r == 3 || r == 1
    ensures now - publishedAt < HourMs <==> r == 10
    ensures now - publishedAt >= 24 * HourMs <==> r == 1
  {
    var ageMs := now - publishedAt;
    if ageMs < HourMs then 10
    else if ageMs < 2 * HourMs then 9
    else if ageMs < 4 * HourMs then 8
    else if ageMs < 6 * HourMs then 7
    else if ageMs < 12 * HourMs then 5
    else if ageMs < 24 * HourMs then 3
    else 1
  }

  /** An older article never scores higher for recency than a newer one. */
  lemma RecencyNeverGrowsWithAge(older: int, newer: int, now: int)
    requires older <= newer
    ensures RecencyScore(older, now) <= RecencyScore(newer, now)
  {
  }

  /** The sub-scores of one article and their weighted total, doubled. */
  datatype HeroScore = HeroScore(
    sourceWeight: int,
    breakingScore: int,
    majorEventScore: int,
    importantTopicScore: int,
    hasImage: int,
    recencyScore: int,
    doubledTotal: int)

  /** The text the keyword lists are matched against: title, a space, description. */
  function ScoredText(a: Article): string
  {
    a.title + " " + a.description
  }

  function CalculateHeroScore(a: Article, now: int): (s: HeroScore)
    ensures s.doubledTotal == 3 * s.sourceWeight + 6 * s.breakingScore + 4 * s.majorEventScore
                              + 3 * s.importantTopicScore + s.hasImage + 2 * s.recencyScore
    ensures s.breakingScore == 10 * MatchCount(ScoredText(a), BreakingSignals)
    ensures s.majorEventScore == 5 * MatchCount(ScoredText(a), MajorEventKeywords)
    ensures s.importantTopicScore == 5 * MatchCount(ScoredText(a), ImportantTopics)
    ensures s.recencyScore == RecencyScore(a.publishedAt, now)
    ensures 0 <= s.breakingScore <= 70
    ensures 0 <= s.majorEventScore <= 100
    ensures 0 <= s.importantTopicScore <= 120
    ensures s.hasImage == (if Truthy(a.imageUrl) then 5 else 0)
    ensures s.sourceWeight == GetSourcePriority(a.source.id)
    ensures 4 <= s.sourceWeight <= 10
    ensures 14 <= s.doubledTotal <= 1235
  {
    KeywordListSizes();
    var text := ScoredText(a);
    var sourceWeight := GetSourcePriority(a.source.id);
    var breakingScore := MatchCount(text, BreakingSignals) * 10;
    var majorEventScore := MatchCount(text, MajorEventKeywords) * 5;
    var importantTopicScore := MatchCount(text, ImportantTopics) * 5;
    var hasImage := if Truthy(a.imageUrl) then 5 else 0;
    var recencyScore := RecencyScore(a.publishedAt, now);
    HeroScore(sourceWeight, breakingScore, majorEventScore, importantTopicScore, hasImage, recencyScore,
              3 * sourceWeight + 6 * breakingScore + 4 * majorEventScore + 3 * importantTopicScore
              + hasImage + 2 * recencyScore)
  }

  function Score(a: Article, now: int): int
  {
    CalculateHeroScore(a, now).doubledTotal
  }

  /** An image adds exactly 2.5 points (5 doubled) to an otherwise identical article. */
  lemma ImageAddsFixedBonus(a: Article, url: string, now: int)
    requires url != ""
    ensures Score(a.(imageUrl := Some(url)), now) == Score(a.(imageUrl := None), now) + 5
  {
  }

  /** Between two otherwise identical articles the newer one scores at least as high. */
  lemma NewerScoresAtLeastAsHigh(a: Article, older: int, newer: int, now: int)
    requires older <= newer
    ensures Score(a.(publishedAt := older), now) <= Score(a.(publishedAt := newer), now)
  {
    RecencyNeverGrowsWithAge(older, newer, now);
  }

  /** The score of every element, in order. */
  function ScoresBy<T>(s: seq<T>, score: T -> int): (r: seq<int>)
    ensures |r| == |s|
  {
    seq(|s|, i requires 0 <= i < |s| => score(s[i]))
  }

  /** The index the scan settles on: the first of the highest scores. */
  function BestIndex(scores: seq<int>): (b: nat)
    requires |scores| > 0
    ensures b < |scores|
    ensures forall j :: 0 <= j < |scores| ==> scores[j] <= scores[b]
    ensures forall j :: 0 <= j < b ==> scores[j] < scores[b]
  {
    if |scores| == 1 then 0
    else
      var b := BestIndex(scores[..|scores| - 1]);
      if scores[|scores| - 1] > scores[b] then |scores| - 1 else b
  }

  /** The first of the highest scores is the only index with those two properties. */
  lemma BestIndexIsUnique(scores: seq<int>, k: nat)
    requires k < |scores|
    requires forall j :: 0 <= j < |scores| ==> scores[j] <= scores[k]
    requires forall j :: 0 <= j < k ==> scores[j] < scores[k]
    ensures BestIndex(scores) == k
  {
  }

  /** The list with the element at `b` moved to the front. */
  function MoveToFront<T>(s: seq<T>, b: nat): (r: seq<T>)
    requires b < |s|
    ensures |r| == |s| && r[0] == s[b]
    ensures multiset(r) == multiset(s)
  {
    assert s == s[..b] + [s[b]] + s[b + 1..];
    [s[b]] + s[..b] + s[b + 1..]
  }

  /** selectHeroArticle for any scoring: the first best of the first 30 goes to the front. */
  function HeroOrderBy<T>(s: seq<T>, score: T -> int): seq<T>
  {
    if |s| <= 1 then s
    else
      var b := BestIndex(ScoresBy(s[..Min(CandidateLimit, |s|)], score));
      if b == 0 then s else MoveToFront(s, b)
  }

  /** The scoring at one instant. */
  function ScoringAt(now: int): Article -> int
  {
    a => Score(a, now)
  }

  /** What selectHeroArticle returns for these articles at this instant. */
  function HeroOrder(articles: seq<Article>, now: int): seq<Article>
  {
    HeroOrderBy(articles, ScoringAt(now))
  }

  /** The scan of selectHeroArticle: a strictly higher score replaces the best so far. */
  method FindBestIndex(scored: seq<int>) returns (bestIndex: nat)
    requires |scored| > 0
    ensures bestIndex == BestIndex(scored)
  {
    bestIndex := 0;
    var bestScore := scored[0];
    assert scored[..1] == [scored[0]];
    for i := 1 to |scored|
      invariant bestIndex == BestIndex(scored[..i])
      invariant bestScore == scored[bestIndex]
    {
      assert scored[..i + 1][..i] == scored[..i];
      if scored[i] > bestScore {
        bestScore := scored[i];
        bestIndex := i;
      }
    }
    assert scored[..|scored|] == scored;
  }

  /** selectHeroArticle: score the first 30 elements, scan for the first best one, and
      move it to the front unless it is already there. */
  method SelectHero<T>(s: seq<T>, score: T -> int) returns (r: seq<T>)
    ensures r == HeroOrderBy(s, score)
  {
    if |s| <= 1 {
      return s;
    }
    var candidates := s[..Min(CandidateLimit, |s|)];
    var scored := ScoresBy(candidates, score);
    var bestIndex := FindBestIndex(scored);
    if bestIndex == 0 {
      return s;
    }
    var hero := s[bestIndex];
    r := [hero] + s[..bestIndex] + s[bestIndex + 1..];
  }

  method SelectHeroArticle(articles: seq<Article>, now: int) returns (r: seq<Article>)
    ensures r == HeroOrder(articles, now)
  {
    r := SelectHero(articles, ScoringAt(now));
  }

  /** The result reorders the input: the hero is one of the first 30 elements, the first
      with the highest score among them, and is moved to the front with everything else
      kept in order; when the first element already is that one the input comes back
      as is. */
  lemma HeroOrderMovesFirstBest<T>(s: seq<T>, score: T -> int)
    requires |s| > 1
    ensures exists b :: (0 <= b < Min(CandidateLimit, |s|)
      && HeroOrderBy(s, score) == [s[b]] + s[..b] + s[b + 1..]
      && (forall j :: 0 <= j < Min(CandidateLimit, |s|) ==> score(s[j]) <= score(s[b]))
      && (forall j :: 0 <= j < b ==> score(s[j]) < score(s[b])))
  {
    var n := Min(CandidateLimit, |s|);
    var scores := ScoresBy(s[..n], score);
    var b := BestIndex(scores);
    assert [s[0]] + s[..0] + s[1..] == s;
    assert forall j :: 0 <= j < n ==> scores[j] == score(s[j]);
    assert HeroOrderBy(s, score) == [s[b]] + s[..b] + s[b + 1..];
  }

  /** The output is a permutation of the input. */
  lemma HeroOrderIsPermutation<T>(s: seq<T>, score: T -> int)
    ensures |HeroOrderBy(s, score)| == |s|
    ensures multiset(HeroOrderBy(s, score)) == multiset(s)
  {
  }

  /** Zero or one article comes back unchanged. */
  lemma HeroOrderOfShortList<T>(s: seq<T>, score: T -> int)
    requires |s| <= 1
    ensures HeroOrderBy(s, score) == s
  {
  }

  /** Choosing the hero again changes nothing: the new first element scores highest
      among the new first 30, which are the old first 30 rearranged. */
  lemma HeroOrderIsIdempotent<T>(s: seq<T>, score: T -> int)
    ensures HeroOrderBy(HeroOrderBy(s, score), score) == HeroOrderBy(s, score)
  {
    var r := HeroOrderBy(s, score);
    if |s| > 1 {
      var n := Min(CandidateLimit, |s|);
      var scores := ScoresBy(s[..n], score);
      var b := BestIndex(scores);
      if b != 0 {
        assert forall j :: 0 <= j < n ==> scores[j] == score(s[j]);
        assert r == [s[b]] + s[..b] + s[b + 1..];
        var rscores := ScoresBy(r[..n], score);
        forall j | 0 <= j < n
          ensures rscores[j] <= rscores[0]
        {
          assert rscores[0] == score(s[b]);
          if j == 0 {
          } else if j <= b {
            assert r[j] == s[j - 1];
          } else {
            assert r[j] == s[j];
          }
        }
        BestIndexIsUnique(rscores, 0);
      }
    }
  }

  /** The same facts for the articles at one instant. */
  lemma SelectHeroArticleFacts(articles: seq<Article>, now: int)
    ensures multiset(HeroOrder(articles, now)) == multiset(articles)
    ensures HeroOrder(HeroOrder(articles, now), now) == HeroOrder(articles, now)
  {
    HeroOrderIsPermutation(articles, ScoringAt(now));
    HeroOrderIsIdempotent(articles, ScoringAt(now));
  }
}
