/** The records shared by the feed pipeline: categories, feed sources, articles,
    per-source fetch statuses, the feed response and the stored user preferences. */
module Types {

  datatype Option<+T> = None | Some(value: T)

  datatype Result<+T, +E> = Ok(value: T) | Err(error: E)

  /** JavaScript truthiness of an optional string: present and not empty. */
  predicate Truthy(s: Option<string>)
  {
    s.Some? && s.value != ""
  }

  /** `Math.min` of two integers. */
  function Min(a: int, b: int): int
  {
    if a < b then a else b
  }

  /** The Category union type: seven topical categories and the sentinel 'all'. */
  datatype Category = All | Tech | Finance | Uk | World | Sport | Culture | Science
  {
    /** The string literal that stands for this category at run time. */
    function Name(): string
    {
      match this
      case All => "all"
      case Tech => "tech"
      case Finance => "finance"
      case Uk => "uk"
      case World => "world"
      case Sport => "sport"
      case Culture => "culture"
      case Science => "science"
    }
  }

  /** Reads a category from its run-time string; anything else is not a Category. */
  function ParseCategory(s: string): (r: Option<Category>)
    ensures r.Some? ==> r.value.Name() == s
  {
    if s == "all" then Some(All)
    else if s == "tech" then Some(Tech)
    else if s == "finance" then Some(Finance)
    else if s == "uk" then Some(Uk)
    else if s == "world" then Some(World)
    else if s == "sport" then Some(Sport)
    else if s == "culture" then Some(Culture)
    else if s == "science" then Some(Science)
    else None
  }

  /** Every category has its own name, and reading a name back gives the category. */
  lemma CategoryNameRoundTrip(c: Category, d: Category)
    ensures ParseCategory(c.Name()) == Some(c)
    ensures c.Name() == d.Name() ==> c == d
  {
  }

  /** The CATEGORIES list shown in the navigation: id and label. */
  const Categories: seq<(Category, string)> := [
    (All, "All"), (Tech, "Tech"), (Finance, "Finance"), (Uk, "UK"),
    (World, "World"), (Sport, "Sport"), (Culture, "Culture"), (Science, "Science")
  ]

  function CategoryIndex(c: Category): (i: nat)
    ensures i < |Categories| && Categories[i].0 == c
  {
    match c
    case All => 0
    case Tech => 1
    case Finance => 2
    case Uk => 3
    case World => 4
    case Sport => 5
    case Culture => 6
    case Science => 7
  }

  /** CATEGORIES has eight entries, 'all' first, and names every category exactly once. */
  lemma CategoriesListEveryCategoryOnce(c: Category)
    ensures |Categories| == 8 && Categories[0].0 == All
    ensures exists i :: 0 <= i < |Categories| && Categories[i].0 == c
    ensures forall i, j :: 0 <= i < j < |Categories| ==> Categories[i].0 != Categories[j].0
  {
    var i := CategoryIndex(c);
  }

  datatype FeedSource = FeedSource(id: string, name: string, url: string, category: Category, logo: Option<string>)

  datatype ArticleSource = ArticleSource(id: string, name: string)

  /** A normalised article. publishedAt is the instant in milliseconds since the epoch
      that the ISO-8601 string of the original denotes. */
  datatype Article = Article(
    id: string,
    title: string,
    description: string,
    fullDescription: string,
    url: string,
    imageUrl: Option<string>,
    source: ArticleSource,
    category: Category,
    publishedAt: int,
    author: Option<string>,
    aiSummary: Option<string>)

  datatype FetchStatus = StatusOk | StatusError

  /** Health record of one source in one aggregation cycle. */
  datatype SourceStatus = SourceStatus(id: string, name: string, status: FetchStatus, articleCount: nat)

  /** Body of the feed endpoint's response; lastUpdated is an instant in milliseconds. */
  datatype FeedResponse = FeedResponse(articles: seq<Article>, lastUpdated: int, sources: seq<SourceStatus>)

  /** Preferences persisted per signed-in user; lastUpdated is an instant in milliseconds. */
  datatype UserPreferences = UserPreferences(
    userId: string,
    enabledSources: seq<string>,
    mutedTopics: seq<string>,
    readArticles: seq<string>,
    savedArticles: seq<string>,
    aiSummariesEnabled: bool,
    lastUpdated: int)
}
