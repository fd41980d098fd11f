/** The static tables of the feed configuration: the priority weights and the list of
    configured feeds, with the facts about them that the lookups rely on. */
module FeedRegistry {
  import opened Types
  import opened SeqUtil

  /** Priority of a source that has no entry of its own. */
  const DefaultSourcePriority: int := 5

  const SourcePriority: map<string, int> := map[
    "bbc-uk" := 10,
    "bbc-world" := 10,
    "bbc-business" := 9,
    "bbc-science" := 9,
    "bbc-sport" := 8,
    "bbc-entertainment" := 7,
    "guardian-uk" := 9,
    "guardian-world" := 9,
    "guardian-business" := 8,
    "guardian-science" := 8,
    "guardian-sport" := 7,
    "guardian-environment" := 8,
    "reuters-world" := 9,
    "aljazeera" := 8,
    "sky-uk" := 7,
    "sky-sports" := 6,
    "ft-markets" := 8,
    "euronews" := 7,
    "france24" := 7,
    "scmp" := 7,
    "guardian-tech" := 7,
    "techcrunch" := 5,
    "verge" := 5,
    "ars" := 4,
    "guardian-music" := 5,
    "guardian-film" := 5,
    "guardian-tv" := 5,
    "nme" := 4,
    "pitchfork" := 4,
    "nasa" := 6,
    "new-scientist" := 5
  ]

  const FeedSourceList: seq<FeedSource> := [
    FeedSource("techcrunch", "TechCrunch", "https://techcrunch.com/feed/", Tech, None),
    FeedSource("verge", "The Verge", "https://www.theverge.com/rss/index.xml", Tech, None),
    FeedSource("ars", "Ars Technica", "https://feeds.arstechnica.com/arstechnica/index", Tech, None),
    FeedSource("guardian-tech", "Guardian Tech", "https://www.theguardian.com/uk/technology/rss", Tech, None),
    FeedSource("bbc-business", "BBC Business", "https://feeds.bbci.co.uk/news/business/rss.xml", Finance, None),
    FeedSource("ft-markets", "FT Markets", "https://www.ft.com/markets?format=rss", Finance, None),
    FeedSource("guardian-business", "Guardian Business", "https://www.theguardian.com/uk/business/rss", Finance, None),
    FeedSource("bbc-uk", "BBC UK", "https://feeds.bbci.co.uk/news/uk/rss.xml", Uk, None),
    FeedSource("guardian-uk", "Guardian UK", "https://www.theguardian.com/uk-news/rss", Uk, None),
    FeedSource("sky-uk", "Sky News UK", "https://feeds.skynews.com/feeds/rss/uk.xml", Uk, None),
    FeedSource("bbc-world", "BBC World", "https://feeds.bbci.co.uk/news/world/rss.xml", World, None),
    FeedSource("guardian-world", "Guardian World", "https://www.theguardian.com/world/rss", World, None),
    FeedSource("aljazeera", "Al Jazeera", "https://www.aljazeera.com/xml/rss/all.xml", World, None),
    FeedSource("bbc-sport", "BBC Sport", "https://feeds.bbci.co.uk/sport/rss.xml", Sport, None),
    FeedSource("sky-sports", "Sky Sports", "https://www.skysports.com/rss/12040", Sport, None),
    FeedSource("guardian-sport", "Guardian Sport", "https://www.theguardian.com/uk/sport/rss", Sport, None),
    FeedSource("bbc-entertainment", "BBC Entertainment", "https://feeds.bbci.co.uk/news/entertainment_and_arts/rss.xml", Culture, None),
    FeedSource("guardian-music", "Guardian Music", "https://www.theguardian.com/music/rss", Culture, None),
    FeedSource("guardian-film", "Guardian Film", "https://www.theguardian.com/film/rss", Culture, None),
    FeedSource("guardian-tv", "Guardian TV & Radio", "https://www.theguardian.com/tv-and-radio/rss", Culture, None),
    FeedSource("nme", "NME", "https://www.nme.com/feed", Culture, None),
    FeedSource("pitchfork", "Pitchfork", "https://pitchfork.com/feed/feed-news/rss", Culture, None),
    FeedSource("bbc-science", "BBC Science", "https://feeds.bbci.co.uk/news/science_and_environment/rss.xml", Science, None),
    FeedSource("guardian-science", "Guardian Science", "https://www.theguardian.com/science/rss", Science, None),
    FeedSource("guardian-environment", "Guardian Environment", "https://www.theguardian.com/environment/rss", Science, None),
    FeedSource("nasa", "NASA", "https://www.nasa.gov/rss/dyn/breaking_news.rss", Science, None),
    FeedSource("new-scientist", "New Scientist", "https://www.newscientist.com/section/news/feed/", Science, None),
    FeedSource("reuters-world", "Reuters", "https://www.reutersagency.com/feed/?best-regions=europe&post_type=best", World, None),
    FeedSource("euronews", "Euronews", "https://www.euronews.com/rss?level=theme&name=news", World, None),
    FeedSource("france24", "France 24", "https://www.france24.com/en/rss", World, None),
    FeedSource("scmp", "South China Morning Post", "https://www.scmp.com/rss/91/feed", World, None)
  ]
}

module FeedSources {
  import opened Types
  import opened SeqUtil
  import opened FeedRegistry

  /** The priority of a source: its own entry, or the default when it has none. */
  function GetSourcePriority(sourceId: string): (p: int)
    ensures sourceId in SourcePriority ==> p == SourcePriority[sourceId]
    ensures sourceId !in SourcePriority ==> p == DefaultSourcePriority
    ensures 4 <= p <= 10
  {
    PriorityTableInRange();
    if sourceId in SourcePriority then SourcePriority[sourceId] else DefaultSourcePriority
  }

  /** Every weight in the priority table lies between 4 and 10. */
  lemma PriorityTableInRange()
    ensures forall id :: id in SourcePriority ==> 4 <= SourcePriority[id] <= 10
  {
  }

  /** The ids of the registry, in order, as a plain list of strings. */
  const RegistryIds: seq<string> := [
    "techcrunch", "verge", "ars", "guardian-tech", "bbc-business", "ft-markets",
    "guardian-business", "bbc-uk", "guardian-uk", "sky-uk", "bbc-world", "guardian-world",
    "aljazeera", "bbc-sport", "sky-sports", "guardian-sport", "bbc-entertainment",
    "guardian-music", "guardian-film", "guardian-tv", "nme", "pitchfork", "bbc-science",
    "guardian-science", "guardian-environment", "nasa", "new-scientist", "reuters-world",
    "euronews", "france24", "scmp"
  ]

  lemma RegistryIdsMatch()
    ensures |FeedSourceList| == |RegistryIds|
    ensures forall i :: 0 <= i < |RegistryIds| ==> FeedSourceList[i].id == RegistryIds[i]
  {
  }

  lemma RegistryIdListDistinct()
    ensures Distinct(RegistryIds)
  {
    RegistryRowsDistinctA();
    RegistryRowsDistinctA2();
    RegistryRowsDistinctB();
    RegistryRowsDistinctC();
    RegistryRowsDistinctD();
  }

  /** The ids at rows 0 to 2 differ from every later id. */
  lemma RegistryRowsDistinctA()
    ensures forall i, j :: 0 <= i < 3 && i < j < |RegistryIds| ==> RegistryIds[i] != RegistryIds[j]
  {
  }

  /** The ids at rows 3 to 5 differ from every later id. */
  lemma RegistryRowsDistinctA2()
    ensures forall i, j :: 3 <= i < 6 && i < j < |RegistryIds| ==> RegistryIds[i] != RegistryIds[j]
  {
  }

  /** The ids at rows 6 to 12 differ from every later id. */
  lemma RegistryRowsDistinctB()
    ensures forall i, j :: 6 <= i < 13 && i < j < |RegistryIds| ==> RegistryIds[i] != RegistryIds[j]
  {
  }

  /** The ids at rows 13 to 20 differ from every later id. */
  lemma RegistryRowsDistinctC()
    ensures forall i, j :: 13 <= i < 21 && i < j < |RegistryIds| ==> RegistryIds[i] != RegistryIds[j]
  {
  }

  /** The ids at rows 21 to 30 differ from every later id. */
  lemma RegistryRowsDistinctD()
    ensures forall i, j :: 21 <= i < j < |RegistryIds| ==> RegistryIds[i] != RegistryIds[j]
  {
  }

  /** The registry holds 31 feeds, none filed under 'all', and every one of them has its
      own priority entry. */
  lemma RegistryShape()
    ensures |FeedSourceList| == 31
    ensures forall i :: 0 <= i < |FeedSourceList| ==> FeedSourceList[i].category != All
    ensures forall i :: 0 <= i < |FeedSourceList| ==> FeedSourceList[i].id in SourcePriority
  {
  }

  /** No two registered feeds share an id. */
  lemma RegistryIdsDistinct()
    ensures forall i, j :: 0 <= i < j < |FeedSourceList| ==> FeedSourceList[i].id != FeedSourceList[j].id
  {
    RegistryIdsMatch();
    RegistryIdListDistinct();
  }

  /** The sources of one category, in registry order. */
  function FilterByCategory(sources: seq<FeedSource>, category: string): (r: seq<FeedSource>)
    ensures forall s :: s in r <==> s in sources && s.category.Name() == category
    ensures IsSubsequence(r, sources)
  {
    if sources == [] then []
    else if sources[0].category.Name() == category then [sources[0]] + FilterByCategory(sources[1..], category)
    else FilterByCategory(sources[1..], category)
  }

  /** The selection is `sources.filter(s => s.category === category)`: the same sources
      with the same multiplicities, in their original order. */
  lemma {:induction false} FilterByCategoryIsFilter(sources: seq<FeedSource>, category: string)
    ensures FilterByCategory(sources, category) == Filter(sources, (s: FeedSource) => s.category.Name() == category)
    decreases |sources|
  {
    if sources != [] {
      FilterByCategoryIsFilter(sources[1..], category);
    }
  }

  /** getSourcesByCategory. The category arrives as an unchecked string from the request,
      so any string is accepted: 'all' selects the whole registry, any other string the
      sources whose category is spelled that way (none, for an unknown category). */
  function GetSourcesByCategory(category: string): (r: seq<FeedSource>)
    ensures category == "all" ==> r == FeedSourceList
    ensures category != "all" ==> forall s :: s in r <==> s in FeedSourceList && s.category.Name() == category
    ensures IsSubsequence(r, FeedSourceList)
  {
    if category == "all" then
      SubsequenceOfSelf(FeedSourceList);
      FeedSourceList
    else FilterByCategory(FeedSourceList, category)
  }

  /** A category string that names no source's category selects nothing. */
  lemma {:induction false} FilterByUnusedCategory(sources: seq<FeedSource>, category: string)
    requires forall i :: 0 <= i < |sources| ==> sources[i].category.Name() != category
    ensures FilterByCategory(sources, category) == []
    decreases |sources|
  {
    if sources != [] {
      FilterByUnusedCategory(sources[1..], category);
    }
  }

  /** A string that is neither 'all' nor a category's name selects no source. */
  lemma UnknownCategoryHasNoSources(category: string)
    requires category != "all"
    requires forall c: Category :: c.Name() != category
    ensures GetSourcesByCategory(category) == []
  {
    FilterByUnusedCategory(FeedSourceList, category);
  }

  lemma {:induction false} SubsequenceOfSelf<T>(s: seq<T>)
    ensures IsSubsequence(s, s)
    decreases |s|
  {
    if s != [] {
      SubsequenceOfSelf(s[1..]);
    }
  }

  /** The first source with the given id. */
  function FindById(sources: seq<FeedSource>, id: string): (r: Option<FeedSource>)
    ensures r.Some? ==> r.value in sources && r.value.id == id
    ensures r.None? <==> forall s :: s in sources ==> s.id != id
    ensures r.Some? ==> exists i :: 0 <= i < |sources| && sources[i] == r.value
                          && forall j :: 0 <= j < i ==> sources[j].id != id
  {
    if sources == [] then None
    else if sources[0].id == id then Some(sources[0])
    else
      var r := FindById(sources[1..], id);
      if r.Some? then
        var i :| 0 <= i < |sources[1..]| && sources[1..][i] == r.value
                 && forall j :: 0 <= j < i ==> sources[1..][j].id != id;
        assert sources[i + 1] == r.value;
        r
      else r
  }

  function GetSourceById(id: string): (r: Option<FeedSource>)
    ensures r.Some? ==> r.value in FeedSourceList && r.value.id == id
    ensures r.None? <==> forall s :: s in FeedSourceList ==> s.id != id
  {
    FindById(FeedSourceList, id)
  }

  /** Ids are unique, so the source found for an id is the only one with that id, and
      every registered source is found by its own id. */
  lemma SourceByIdIsUnique(s: FeedSource)
    requires s in FeedSourceList
    ensures GetSourceById(s.id) == Some(s)
  {
    RegistryIdsDistinct();
    FoundIsTheOnlyOne(FeedSourceList, s);
  }

  /** In a list whose ids are distinct, a member is what its own id finds. */
  lemma FoundIsTheOnlyOne(sources: seq<FeedSource>, s: FeedSource)
    requires s in sources
    requires forall i, j :: 0 <= i < j < |sources| ==> sources[i].id != sources[j].id
    ensures FindById(sources, s.id) == Some(s)
  {
    var r := FindById(sources, s.id);
    var i :| 0 <= i < |sources| && sources[i] == s;
    var k :| 0 <= k < |sources| && sources[k] == r.value;
  }
}
