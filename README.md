# News reader feed pipeline, in Dafny

This project models the server side of a news reader written in TypeScript (Next.js).
It covers four parts:

- the static registry of 31 RSS feeds and their hero priorities;
- the normaliser that turns a feed's raw items into articles: entity decoding, HTML
  cleanup, full and short descriptions, image choice, article ids;
- the aggregator: one status per source, then the pooled articles sorted newest
  first, grouped by source, interleaved round-robin and given a hero article;
- the `GET /api/feeds` handler with its in-memory five-minute feed cache.

Around that pipeline it also models:

- the fixed-window rate limiter and its periodic sweep;
- the reader's preference lists (read, saved, muted, enabled sources);
- the AI allow-list read from a comma-separated environment variable;
- the HTML escaping and section-selection rules of the e-mail digest.

Every module is one file:

| module | file | models |
|---|---|---|
| `Types` | types.dfy | `src/types/index.ts` |
| `JsText` | js_text.dfy | the JavaScript string primitives the code relies on (`trim`, `split`, `parseInt`, `indexOf`, `slice`, ASCII case folding, global literal `replace`) |
| `SeqUtil` | seq_util.dfy | `Array.prototype.filter` and subsequences |
| `FeedRegistry`, `FeedSources` | feed_sources.dfy | `src/lib/feedSources.ts` |
| `Patterns` | patterns.dfy | the keyword regular expressions of `src/lib/heroSelector.ts` |
| `HeroSelector` | hero_selector.dfy | `src/lib/heroSelector.ts` |
| `RssParser` | rss_parser.dfy | `src/lib/rssParser.ts` up to `parseFeed` |
| `NewestFirst` | newest_first.dfy | the in-place newest-first sort in `parseAllFeeds` |
| `RoundRobin` | round_robin.dfy | the grouping `Map` and the `while (hasMore)` interleaving in `parseAllFeeds` |
| `Aggregator` | aggregator.dfy | `parseAllFeeds` |
| `FeedCache` | feed_cache.dfy | `src/lib/feedCache.ts` |
| `RateLimit` | rate_limit.dfy | `src/lib/rateLimit.ts` |
| `FeedRoute` | feed_route.dfy | `src/app/api/feeds/route.ts` |
| `Preferences` | preferences.dfy | `src/context/PreferencesContext.tsx` |
| `AiAccess` | ai_access.dfy | `src/lib/aiTypes.ts` |
| `EmailTemplate` | email_template.dfy | `escapeHtml` and the selection rules of `generateEmailHTML` in `src/lib/emailTemplate.ts` |

Where the code mutates state, the model does too:

- the feed cache, the rate limiter and the preference store are classes whose methods
  update a `map` or record field;
- the newest-first sort is an insertion sort in place on an `array`;
- the status loop, the grouping loop, the round-robin loop and the hero scan are
  `while`/`for` loops.

Each of these is proved against a specification function. The properties are proved
about those functions.

Things the model takes as parameters:

- the clock (`now`, an instant in milliseconds);
- each source's fetch result;
- the date parser;
- the MD5 digest;
- the environment variables.

Nothing was executed. Everything here holds because the verifier checked it.

Two behaviours of the code are worth stating up front:

- `Math.min(parseInt(…, 10), 300)` at src/app/api/feeds/route.ts:13 caps the limit
  from above only, so a negative limit passes; see "## Findings".
- The round-robin interleaving gives sources their turns in the order in which each
  source's newest article first appears in the pool sorted newest first
  (`FirstRoundTakesNewestOfEachSource`). The hero step may then move one article to
  the front.

## Model

| member | source | states |
|---|---|---|
| Types.ParseCategory | src/types/index.ts:1 | a string read as a Category is exactly that category's run-time name |
| Types.CategoryNameRoundTrip | src/types/index.ts:1 | the eight categories have distinct names, and reading a name back gives its category |
| Types.CategoriesListEveryCategoryOnce | src/types/index.ts:49-58 | CATEGORIES has eight entries with 'all' first, and lists every category exactly once |
| FeedSources.GetSourcePriority | src/lib/feedSources.ts:43-47 | the table's value when the id has an entry, otherwise the default 5; always between 4 and 10 |
| FeedSources.PriorityTableInRange | src/lib/feedSources.ts:5-41 | every weight in SOURCE_PRIORITY lies between 4 and 10 |
| FeedSources.RegistryShape | src/lib/feedSources.ts:49-253 | FEED_SOURCES holds 31 feeds, none filed under 'all', and each has its own SOURCE_PRIORITY entry |
| FeedSources.RegistryIdsDistinct | src/lib/feedSources.ts:49-253 | no two registered feeds share an id |
| FeedSources.FilterByCategory | src/lib/feedSources.ts:259 | a source is selected exactly when it is in the list and filed under the category, and the selection keeps the list's order |
| FeedSources.FilterByCategoryIsFilter | src/lib/feedSources.ts:259 | the selection is exactly `filter` by the category: the same sources, the same multiplicities, in their original order |
| FeedSources.GetSourcesByCategory | src/lib/feedSources.ts:255-260 | 'all' gives the whole registry in order; any other string gives exactly the sources with that category, in registry order |
| FeedSources.FilterByUnusedCategory | src/lib/feedSources.ts:259 | a category string that no source has selects nothing |
| FeedSources.UnknownCategoryHasNoSources | src/lib/feedSources.ts:255-260 | a string that is neither 'all' nor a category name selects no source |
| FeedSources.FindById | src/lib/feedSources.ts:263 | the first source with the id; None exactly when no source has it |
| FeedSources.GetSourceById | src/lib/feedSources.ts:262-264 | a found source is registered and has the id; undefined exactly when no registered source has it |
| FeedSources.SourceByIdIsUnique | src/lib/feedSources.ts:49-264 | because ids are distinct, every registered source is what its own id finds |
| JsText.ToLowerAscii | src/lib/aiTypes.ts:81 | same length; each character folded on its own, with only A–Z changed |
| JsText.Trim | src/lib/aiTypes.ts:81 | the slice left after dropping white space at both ends; what remains neither starts nor ends with white space |
| JsText.Split | src/lib/aiTypes.ts:80 | at least one piece, no piece holds the separator, and joining the pieces with it gives the text back |
| JsText.SplitWithoutSeparator | src/lib/aiTypes.ts:80 | a text without the separator splits into itself alone |
| JsText.IndexOf | src/lib/rssParser.ts:121 | -1 exactly when there is no occurrence, otherwise the first occurrence |
| JsText.LastIndexOf | src/lib/rssParser.ts:125 | -1 exactly when there is no occurrence, otherwise an occurrence with none after it |
| JsText.BeforeFirst | src/lib/rssParser.ts:121 | `split(sep)[0]`: a prefix free of the separator that ends where the first separator starts, or the whole text |
| JsText.ReplaceAllWithoutFirstChar | src/lib/rssParser.ts:58-74 | a global replace leaves a text without the pattern's first character unchanged |
| JsText.ReplaceAllShortens | src/lib/rssParser.ts:58-74 | replacing with something no longer than the pattern never lengthens the text |
| JsText.ReplaceAllKeepsOut | src/lib/rssParser.ts:58-74 | a character in neither the text nor the replacement is not in the result |
| JsText.ReplaceAllWithoutPattern | src/lib/rssParser.ts:58-74 | a text in which the pattern never occurs is left unchanged |
| JsText.ReplaceAllSkipsPrefix | src/lib/rssParser.ts:58-74 | a prefix without the pattern's first character is copied, and replacing goes on after it |
| JsText.ReplaceAllAtPattern | src/lib/rssParser.ts:58-74 | a text starting with the pattern has it replaced there, and replacing goes on after it |
| JsText.ParseIntOfDecimal | src/app/api/feeds/route.ts:13 | `parseInt` reads back the value of a decimal numeral |
| JsText.ParseIntOfNegDecimal | src/app/api/feeds/route.ts:13 | `parseInt` reads a minus sign followed by a decimal numeral as the negated value |
| JsText.ParseIntAfterPad | src/app/api/feeds/route.ts:13 | `parseInt` skips leading white space |
| JsText.ParseIntWithoutDigits | src/app/api/feeds/route.ts:13 | a string with no digits parses to NaN |
| JsText.SliceEnd | src/app/api/feeds/route.ts:21 | the length of `slice(0, end)`: none for NaN, at most `end` for a non-negative end, and `len + end` (floored at 0) for a negative end |
| Patterns.KeywordListSizes | src/lib/heroSelector.ts:5-65 | the three keyword lists hold 7, 20 and 24 patterns |
| Patterns.MatchCount | src/lib/heroSelector.ts:86-88 | at most one per pattern; 0 exactly when no pattern matches, and the list's length exactly when all match |
| Patterns.MatchCountAppend | src/lib/heroSelector.ts:86-88 | the count over two lists of patterns is the sum of their counts |
| Patterns.LiteralPatternIsSubstringSearch | src/lib/heroSelector.ts:41-64 | a lower-case literal pattern with the `i` flag matches exactly when the text, folded to lower case, contains it |
| Patterns.WordPatternIsWholeWordSearch | src/lib/heroSelector.ts:6-40 | `\bw\b` with the `i` flag matches exactly when `w` occurs, up to case, with no word character on either side |
| HeroSelector.RecencyScore | src/lib/heroSelector.ts:90-102 | one of 10, 9, 8, 7, 5, 3, 1; 10 exactly when younger than an hour (a negative age included); 1 exactly when 24 hours or older |
| HeroSelector.RecencyNeverGrowsWithAge | src/lib/heroSelector.ts:90-102 | an older article never gets a higher recency score |
| HeroSelector.CalculateHeroScore | src/lib/heroSelector.ts:104-131 | breaking is 10 per match (0–70), major event 5 per match (0–100), topic 5 per match (0–120), image 5 or 0, source weight from the priority table; the doubled total is the doubled weighted sum |
| HeroSelector.ImageAddsFixedBonus | src/lib/heroSelector.ts:111-119 | an image adds exactly 2.5 points (5 doubled) to an otherwise identical article |
| HeroSelector.NewerScoresAtLeastAsHigh | src/lib/heroSelector.ts:112-120 | of two otherwise identical articles the newer scores at least as high |
| HeroSelector.BestIndex | src/lib/heroSelector.ts:150-158 | the first of the highest scores: nothing scores more, and everything before it scores strictly less |
| HeroSelector.BestIndexIsUnique | src/lib/heroSelector.ts:150-158 | only one index is the first of the highest scores |
| HeroSelector.FindBestIndex | src/lib/heroSelector.ts:150-158 | the scan with its strict `>` settles on the first of the highest scores |
| HeroSelector.SelectHero | src/lib/heroSelector.ts:137-170 | the method returns what the selection function prescribes |
| HeroSelector.SelectHeroArticle | src/lib/heroSelector.ts:137-170 | selectHeroArticle returns the hero order of the articles at that instant |
| HeroSelector.MoveToFront | src/lib/heroSelector.ts:166-169 | same length and the same elements, with the chosen element first |
| HeroSelector.HeroOrderMovesFirstBest | src/lib/heroSelector.ts:142-169 | the hero is one of the first 30, the first with the highest score among them, moved to the front with everything else in order |
| HeroSelector.HeroOrderIsPermutation | src/lib/heroSelector.ts:133-170 | the output has the same length and the same elements as the input |
| HeroSelector.HeroOrderOfShortList | src/lib/heroSelector.ts:138-140 | zero or one article comes back unchanged |
| HeroSelector.HeroOrderIsIdempotent | src/lib/heroSelector.ts:133-170 | with the clock fixed, choosing the hero again changes nothing |
| HeroSelector.SelectHeroArticleFacts | src/lib/heroSelector.ts:133-170 | the permutation and idempotence facts for articles scored at one instant |
| RssParser.CreateArticleId | src/lib/rssParser.ts:17-20 | the id is a prefix of the digest of `sourceId:url`, and it has 16 characters whenever the digest has that many |
| RssParser.ArticleKeyIsInjective | src/lib/rssParser.ts:17-20 | for colon-free source ids, different (source, link) pairs hash different keys |
| RssParser.FirstImgSrc | src/lib/rssParser.ts:40 | None exactly when no `<img` has a `src="…"` before its first `>`; otherwise the capture of the leftmost such tag, non-empty and free of `"`, found in the text as `src="` + capture + `"` after that `<img` |
| RssParser.FirstImgSrcFrom | src/lib/rssParser.ts:40 | from a position on: None exactly when no later `<img` has a source, otherwise the capture of the first one that has |
| RssParser.ImgCapture | src/lib/rssParser.ts:40 | an `<img` yields a capture exactly when a `src="…"` starts before its first `>` |
| RssParser.SrcAtOrBefore | src/lib/rssParser.ts:40 | the greedy `[^>]+`: the last `src="…"` starting in the range, None exactly when none does |
| RssParser.SrcCaptureShape | src/lib/rssParser.ts:40 | a capture is non-empty, free of `"`, and sits between `src="` and `"` |
| RssParser.SrcOccurrenceIsMatch | src/lib/rssParser.ts:40 | conversely, every `src="v"` with a non-empty, quote-free `v` is a match capturing exactly `v` |
| RssParser.ImgTagWithSrcIsFound | src/lib/rssParser.ts:40 | an `<img` with a `src="v"` before its first `>` is found; when no earlier `<img` has one, its capture is the answer |
| RssParser.ExtractImageUrl | src/lib/rssParser.ts:22-56 | media content first, then the thumbnail; None only when both of those are missing; never an empty string |
| RssParser.FirstTruthy | src/lib/rssParser.ts:22-56 | the first present value of a list; None exactly when none is present |
| RssParser.ExtractImageUrlIsFirstCandidate | src/lib/rssParser.ts:22-56 | the chosen image is the first present value among media content, thumbnail, image enclosure, `<img>` in the content, and `<img>` in the encoded content |
| RssParser.EntityTableShape | src/lib/rssParser.ts:58-74 | 14 replacements with `&amp;`, `&lt;`, `&gt;` first; each pattern starts with `&` and is no shorter than its replacement |
| RssParser.DecodeHtmlEntities | src/lib/rssParser.ts:58-74 | a text without `&` decodes to itself |
| RssParser.DecodeNeverLengthens | src/lib/rssParser.ts:58-74 | decoding never makes a text longer |
| RssParser.DecodeIsAppliedTwice | src/lib/rssParser.ts:60-61 | `&amp;` is replaced first, so `&amp;lt;` decodes all the way to `<` |
| RssParser.DecodeEscapedTag | src/lib/rssParser.ts:58-74 | an escaped tag `&lt;x&gt;` with no `&` in `x` decodes to `<x>` |
| RssParser.StripTags | src/lib/rssParser.ts:83 | only characters of the input remain, and no `<` is followed later by a `>` |
| RssParser.CollapseNewlines | src/lib/rssParser.ts:92 | no run of three newlines remains |
| RssParser.CleanHtml | src/lib/rssParser.ts:76-95 | the result has no white space at either end and never three newlines in a row |
| RssParser.MarkupPassesKeepPlainText | src/lib/rssParser.ts:78-83 | the link, paragraph, line-break and tag passes leave a text without `<` unchanged |
| RssParser.CleanHtmlOfPlainText | src/lib/rssParser.ts:76-95 | tags are stripped before entities are decoded: a text without `<` is only decoded, stripped of a trailing "Continue reading...", collapsed and trimmed |
| RssParser.EndsWithTagKept | src/lib/rssParser.ts:89 | a text ending in `>` loses no trailing "Continue reading..." |
| RssParser.CollapseNewlinesWithoutNewline | src/lib/rssParser.ts:92 | a text without a newline is not changed by the collapse |
| RssParser.LaterPassesKeepTag | src/lib/rssParser.ts:88-92 | the passes after decoding leave `<…>` without newlines as it is |
| RssParser.EscapedTagSurvivesCleanup | src/lib/rssParser.ts:76-95 | an escaped tag such as `&lt;b&gt;` comes out as the literal text `<b>`, not stripped |
| RssParser.CapWithEllipsis | src/lib/rssParser.ts:112-116 | at most the cap; a short text unchanged; a long one cut to cap − 3 characters plus "..." |
| RssParser.ExtractFullContent | src/lib/rssParser.ts:97-117 | at most 800 characters; the cleaned content only when strictly longer than the trimmed, decoded snippet, otherwise the snippet |
| RssParser.FullContentTieKeepsSnippet | src/lib/rssParser.ts:107-109 | on equal lengths the snippet wins |
| RssParser.FirstParagraph | src/lib/rssParser.ts:121 | a prefix of the text: either all of it or the part before its first blank line; empty only for an empty text |
| RssParser.ExtractShortDescription | src/lib/rssParser.ts:119-133 | at most 150 characters; a first paragraph of up to 150 comes back as is; a longer one is cut after the last ". " if that starts beyond 80, otherwise 147 characters plus "..." |
| RssParser.ShortDescriptionCutsAtSentence | src/lib/rssParser.ts:123-129 | a sentence cut ends in "." that starts a ". " with no later one in the first 150 characters; otherwise there is no ". " starting beyond 80 |
| RssParser.UsableItems | src/lib/rssParser.ts:140 | exactly `items.filter` by a truthy title and link: the same elements, the same multiplicities, in feed order |
| RssParser.KeptItems | src/lib/rssParser.ts:140-141 | the first 10 usable items, or all of them when fewer |
| RssParser.PublishedAt | src/lib/rssParser.ts:158-160 | an absent pubDate gives the current time; a present one is an error exactly when the date parser rejects it |
| RssParser.ToArticle | src/lib/rssParser.ts:146-162 | the id is the digest id of the link and source id; the full description is extracted from content and snippet, the description is the short form of the full one; the image is the first present candidate; the author is the creator when truthy, else the author field; link, trimmed title, source, category and instant are copied |
| RssParser.ItemDates | src/lib/rssParser.ts:158-160 | every item's instant, in order; an error exactly when some item has a bad date |
| RssParser.MapItems | src/lib/rssParser.ts:142-163 | one article per item in order, or an error exactly when some item has a bad date |
| RssParser.ParseFeed | src/lib/rssParser.ts:135-168 | a fetch failure is the source's failure; otherwise at most 10 articles from the kept items in feed order with their fields copied, or an error exactly when one kept item has a bad date |
| NewestFirst.SortNewestFirst | src/lib/rssParser.ts:218-221 | the stable sort as insertion of each element in turn; same length as the input |
| NewestFirst.InsertIsPermutation | src/lib/rssParser.ts:218-221 | insertion adds exactly the one element |
| NewestFirst.SortIsPermutation | src/lib/rssParser.ts:218-221 | the sort neither adds nor drops anything |
| NewestFirst.InsertKeepsSorted | src/lib/rssParser.ts:218-221 | inserting into a newest-first list keeps it newest first |
| NewestFirst.SortIsSortedDescending | src/lib/rssParser.ts:218-221 | the sort's output is newest first |
| NewestFirst.InsertIsStable | src/lib/rssParser.ts:218-221 | among equal instants, insertion puts the new element last |
| NewestFirst.SortIsStable | src/lib/rssParser.ts:218-221 | articles with the same instant keep their input order, as `Array.prototype.sort` promises |
| NewestFirst.FilterKeepsSorted | src/lib/rssParser.ts:218-221 | every order-preserving selection of a newest-first list is newest first |
| NewestFirst.InsertPosition | src/lib/rssParser.ts:218-221 | insertion puts the element after the last one at least as new |
| NewestFirst.InsertAt | src/lib/rssParser.ts:218-221 | one step in place: the prefix up to `i` becomes the insertion of `a[i]` into it, and the rest of the array is untouched |
| NewestFirst.SortInPlace | src/lib/rssParser.ts:218-221 | the array ends up as the stable newest-first sort of its old contents |
| RoundRobin.KeyIndex | src/lib/rssParser.ts:227 | `Map.get`: the position of the key, or -1 exactly when it is absent |
| RoundRobin.FirstAppearancesFacts | src/lib/rssParser.ts:225-233 | the keys seen, each once, in order of first appearance |
| RoundRobin.AddToKeys | src/lib/rssParser.ts:227-229 | one turn of the grouping loop adds the key at the end only when it is new |
| RoundRobin.GroupByKeys | src/lib/rssParser.ts:225-233 | the map's keys are the source ids in order of first appearance in the sorted pool |
| RoundRobin.GroupByKeysDistinctAndComplete | src/lib/rssParser.ts:225-230 | the keys are distinct and every article's source id is one of them |
| RoundRobin.GroupByQueues | src/lib/rssParser.ts:225-230 | each queue holds exactly its source's articles, in sorted order, and is not empty |
| RoundRobin.AddToAddsOne | src/lib/rssParser.ts:227-229 | one turn of the grouping loop adds exactly its article to the queues |
| RoundRobin.GroupByIsPermutation | src/lib/rssParser.ts:225-230 | grouping neither adds nor drops an article |
| RoundRobin.GroupBySource | src/lib/rssParser.ts:225-230 | the grouping loop computes the grouping function |
| RoundRobin.HeadsOfNonEmptyQueues | src/lib/rssParser.ts:238-243 | with no empty queue, a round takes the first of every queue, in queue order |
| RoundRobin.RoundSplitsQueues | src/lib/rssParser.ts:238-243 | a round splits the queued articles into what it takes and what it leaves |
| RoundRobin.HeadsEmptyIffNothingQueued | src/lib/rssParser.ts:238-243 | a round takes something exactly when something is queued |
| RoundRobin.RoundShrinks | src/lib/rssParser.ts:236-244 | a round with something queued leaves strictly less |
| RoundRobin.InterleaveIsPermutation | src/lib/rssParser.ts:232-244 | the round-robin order holds every queued article exactly once |
| RoundRobin.HeadsWithKey | src/lib/rssParser.ts:238-243 | a round takes from a source's queue its first article and nothing else of that source |
| RoundRobin.HeadsWithoutKey | src/lib/rssParser.ts:238-243 | a round takes nothing of a source that has no queue |
| RoundRobin.InterleaveKeepsQueueOrder | src/lib/rssParser.ts:232-244 | the articles of one source come out exactly as its queue held them |
| RoundRobin.TakeRound | src/lib/rssParser.ts:237-243 | one pass shifts every non-empty queue, appends the heads, and sets hasMore exactly when some queue had two or more |
| RoundRobin.RoundLeavesSomething | src/lib/rssParser.ts:241 | something is left after a round exactly when some queue held two or more |
| RoundRobin.InterleaveUnfolds | src/lib/rssParser.ts:236-244 | the round-robin order is one round followed by the order of what it leaves |
| RoundRobin.InterleaveQueues | src/lib/rssParser.ts:232-244 | the `while (hasMore)` loop produces the round-robin order |
| Aggregator.CollectResults | src/lib/rssParser.ts:196-215 | the loop builds the pool of fulfilled sources' articles and the status list |
| Aggregator.OrderPool | src/lib/rssParser.ts:218-247 | the in-place sort, the grouping, the interleaving and the hero step compute the ordering function |
| Aggregator.ParseAllFeeds | src/lib/rssParser.ts:170-250 | the statuses and articles of parseAllFeeds, once each source's fetch has settled |
| Aggregator.StatusesMatchSources | src/lib/rssParser.ts:196-215 | one status per source in input order; a rejected source is `error` with count 0; a fulfilled one is `ok` with its article count |
| Aggregator.CountsAddUpToPool | src/lib/rssParser.ts:196-215 | the counts in the statuses add up to the size of the pool |
| Aggregator.AggregateIsPermutation | src/lib/rssParser.ts:188-249 | the returned articles are a permutation of the fulfilled sources' articles |
| Aggregator.GroupsAreLabelled | src/lib/rssParser.ts:225-233 | each queue holds only its own source's articles, under distinct source ids |
| Aggregator.AbsentSourceHasNoArticles | src/lib/rssParser.ts:225-244 | a source with no group has no articles before or after interleaving |
| Aggregator.InterleavedKeepsSourceOrder | src/lib/rssParser.ts:218-244 | before the hero step, each source's articles keep their sorted order, so they stay newest first among themselves |
| Aggregator.FirstRoundTakesNewestOfEachSource | src/lib/rssParser.ts:225-244 | the first round takes each source's newest article, the sources ordered by where their newest article first appears in the sorted pool |
| FeedCache.Lookup | src/lib/feedCache.ts:17-30 | a hit exactly when the key is present and now − timestamp ≤ 300000; a hit returns the stored entry |
| FeedCache.Age | src/lib/feedCache.ts:48-52 | defined exactly when the key is present, even when expired, and then timestamp + age = now |
| FeedCache.Cache.constructor | src/lib/feedCache.ts:14 | the cache starts empty |
| FeedCache.Cache.GetCachedFeed | src/lib/feedCache.ts:17-30 | returns the lookup of the key at `now` |
| FeedCache.Cache.SetCachedFeed | src/lib/feedCache.ts:32-42 | replaces the whole entry of its key, stamped now, and leaves every other key as it was |
| FeedCache.Cache.ClearCache | src/lib/feedCache.ts:44-46 | the cache is empty afterwards |
| FeedCache.Cache.GetCacheAge | src/lib/feedCache.ts:48-52 | returns the age of the key's entry at `now` |
| FeedCache.TtlBoundary | src/lib/feedCache.ts:15-24 | an entry exactly 300000 ms old is still fresh; one a millisecond older is not |
| FeedCache.ClearedCacheMisses | src/lib/feedCache.ts:17-52 | a key never set, or set and then cleared, misses and has no age |
| FeedCache.SetThenGet | src/lib/feedCache.ts:17-42 | a set followed by a get at the same instant returns the same articles and sources |
| FeedCache.SetLeavesOtherKeys | src/lib/feedCache.ts:32-42 | a set leaves every other key's lookup and age unchanged |
| FeedCache.MissStaysMiss | src/lib/feedCache.ts:24-29 | reads do not evict: once a read misses, every later read misses until the next set |
| FeedCache.HitIffYoungEnough | src/lib/feedCache.ts:24-52 | a hit exactly when the age is defined and at most the TTL |
| RateLimit.Step | src/lib/rateLimit.ts:48-80 | no entry or `resetTime < now` opens a window with count 1, allowed, remaining max − 1; otherwise the count goes up with resetTime kept, allowed exactly when count ≤ max, with remaining max − count or 0 |
| RateLimit.Sweep | src/lib/rateLimit.ts:14-21 | exactly the entries with `resetTime < now` are dropped; every other entry is kept as it was |
| RateLimit.RateLimiter.constructor | src/lib/rateLimit.ts:11 | the store starts empty |
| RateLimit.RateLimiter.CheckRateLimit | src/lib/rateLimit.ts:40-81 | the answer is one step on the caller's own key, and only that key's entry changes |
| RateLimit.RateLimiter.Cleanup | src/lib/rateLimit.ts:15-20 | the sweep loop leaves the store as the sweep function prescribes |
| RateLimit.WindowAllowsUpToLimit | src/lib/rateLimit.ts:64-80 | within one window, the calls still allowed are those that keep the count within the limit |
| RateLimit.ExactlyMaxPerWindow | src/lib/rateLimit.ts:51-80 | with maxRequests ≥ 1, exactly min(calls, maxRequests) calls are allowed in one window on one key |
| RateLimit.FirstCallOpensWindow | src/lib/rateLimit.ts:51-62 | the first call on a fresh key is allowed and opens a window with count 1 |
| RateLimit.ResetInstantBelongsToOldWindow | src/lib/rateLimit.ts:51 | at now == resetTime the old window still applies and the count goes up |
| RateLimit.RejectionLastsTheWindow | src/lib/rateLimit.ts:64-74 | a rejected call still counts, and every later call in the window is rejected |
| RateLimit.StoreKeyParts | src/lib/rateLimit.ts:45 | the key is the identifier, a colon, and the endpoint |
| RateLimit.StoreKeysDiffer | src/lib/rateLimit.ts:45-48 | for colon-free identifiers, different clients or endpoints never share a counter |
| FeedRoute.RequestCategory | src/app/api/feeds/route.ts:12 | a missing or empty parameter means 'all'; any other string is used as it is |
| FeedRoute.RequestLimit | src/app/api/feeds/route.ts:13 | a parsed limit never exceeds 300 |
| FeedRoute.SliceCountAsWritten | src/app/api/feeds/route.ts:35 | `slice(0, limit)` as written keeps no more than the whole list |
| FeedRoute.ResponseCount | src/app/api/feeds/route.ts:21-35 | the corrected count: equal to the slice as written for a non-negative limit, none for NaN or a non-positive limit, never more than the limit |
| FeedRoute.Serve | src/app/api/feeds/route.ts:10-39 | the response holds the first articles of the cached entry for "feed-" + category, with its statuses and timestamp, and at most 300 articles; a hit leaves the cache alone; a miss stores the full fresh aggregation stamped now |
| FeedRoute.Get | src/app/api/feeds/route.ts:10-39 | the handler over the cache object returns the response and leaves the cache as the route function prescribes |
| FeedRoute.DefaultLimit | src/app/api/feeds/route.ts:13 | without a limit parameter, or with an empty one, the limit is 300 |
| FeedRoute.LimitOfParsed | src/app/api/feeds/route.ts:13 | a parameter that parses to v gives min(v, 300) |
| FeedRoute.DecimalLimit | src/app/api/feeds/route.ts:13 | a decimal limit n gives min(n, 300) |
| FeedRoute.NonNumericLimitServesNothing | src/app/api/feeds/route.ts:13-35 | a limit without digits is NaN, and the response then holds no articles |
| FeedRoute.RepeatWithinTtlIsServedFromCache | src/app/api/feeds/route.ts:18-38 | a miss caches the full aggregation whatever the limit; a repeat within the TTL is served from it without fetching, with the first request's statuses and time |
| FeedRoute.UnknownCategoryServesNothing | src/app/api/feeds/route.ts:28-38 | an unknown category answers with no articles and no statuses, and caches that empty result |
| FeedRoute.NegativeLimitPassesCap | src/app/api/feeds/route.ts:13-35 | as written, `?limit=-n` passes the cap, and slicing then drops only n articles from the end |
| FeedRoute.ResponseNeverExceedsCap | src/app/api/feeds/route.ts:13-35 | with the corrected count no response exceeds 300 articles, and a non-negative limit keeps what the code keeps |
| Preferences.DefaultPreferences | src/context/PreferencesContext.tsx:7-13 | empty source, topic, read and saved lists, AI summaries on, for the given user and time |
| Preferences.Merge | src/context/PreferencesContext.tsx:106-110 | the user is kept and the record stamped; an empty update changes only the stamp |
| Preferences.MergeKeepsUnsetFields | src/context/PreferencesContext.tsx:106-110 | a merge overwrites only the fields it is given, besides the stamp |
| Preferences.AppendIfAbsent | src/context/PreferencesContext.tsx:124-151 | the element is present afterwards; an existing element leaves the list as it is; otherwise it is appended once |
| Preferences.AppendIfAbsentFacts | src/context/PreferencesContext.tsx:124-151 | adds the element and keeps every other; idempotent; never introduces a duplicate |
| Preferences.RemoveAll | src/context/PreferencesContext.tsx:139-176 | never longer than the list |
| Preferences.RemoveAllMembers | src/context/PreferencesContext.tsx:139-176 | every copy of the element is removed, and nothing else |
| Preferences.RemoveAbsentIsIdentity | src/context/PreferencesContext.tsx:153-159 | removing an absent element changes nothing |
| Preferences.Toggle | src/context/PreferencesContext.tsx:136-141 | toggling flips the element's membership and leaves every other element's |
| Preferences.ToggleSourceList | src/context/PreferencesContext.tsx:161-180 | from an empty list only the source is listed; otherwise the source's membership flips and every other source's stays |
| Preferences.ToggleTwiceFromAbsent | src/context/PreferencesContext.tsx:133-142 | toggling an absent element twice gives the list back |
| Preferences.FirstSourceToggleEnablesOnlyIt | src/context/PreferencesContext.tsx:161-198 | the first toggle from an empty list enables only the toggled source |
| Preferences.LaterSourceToggle | src/context/PreferencesContext.tsx:161-198 | on a non-empty list a toggle flips the source, unless it empties the list, which enables every source |
| Preferences.SourceListEmptiesOnlyOnLastRemoval | src/context/PreferencesContext.tsx:173-179 | the list becomes empty exactly when every entry was the toggled source |
| Preferences.ChecksWithoutPreferences | src/context/PreferencesContext.tsx:187-202 | with no preferences nothing is read, saved or muted, and every source is shown |
| Preferences.MarkedArticleIsRead | src/context/PreferencesContext.tsx:187-189 | after markAsRead the article is read and every other article is as before |
| Preferences.ToggledArticleFlipsSaved | src/context/PreferencesContext.tsx:191-193 | toggleSaved flips isSaved for the article and no other |
| Preferences.MuteThenCheck | src/context/PreferencesContext.tsx:200-202 | after muteTopic the topic is muted, after unmuteTopic it is not; other topics keep their state |
| Preferences.PreferencesStore.constructor | src/context/PreferencesContext.tsx:53-55 | no user, no preferences, no error |
| Preferences.PreferencesStore.Load | src/context/PreferencesContext.tsx:58-97 | sign-out clears the preferences; a stored record is used; nothing stored gives the defaults; unreadable text gives the defaults and records the error |
| Preferences.PreferencesStore.UpdatePreferences | src/context/PreferencesContext.tsx:103-121 | nothing without a user or preferences; otherwise the merge of the update, stamped now |
| Preferences.PreferencesStore.MarkAsRead | src/context/PreferencesContext.tsx:124-131 | appends the article once unless it is already read |
| Preferences.PreferencesStore.ToggleSaved | src/context/PreferencesContext.tsx:133-142 | flips the article's membership of the saved list |
| Preferences.PreferencesStore.MuteTopic | src/context/PreferencesContext.tsx:144-151 | appends the topic once unless it is already muted |
| Preferences.PreferencesStore.UnmuteTopic | src/context/PreferencesContext.tsx:153-159 | removes every copy of the topic |
| Preferences.PreferencesStore.ToggleSource | src/context/PreferencesContext.tsx:161-180 | an empty list becomes the one source; otherwise the source's membership flips |
| Preferences.PreferencesStore.SetAiSummariesEnabled | src/context/PreferencesContext.tsx:182-184 | sets the flag through the same update path |
| AiAccess.NormalizedPieces | src/lib/aiTypes.ts:79-81 | one entry per comma-separated piece, each trimmed and lower-cased |
| AiAccess.AllowList | src/lib/aiTypes.ts:74-83 | an unset or empty variable gives the empty list |
| AiAccess.NormalizedShape | src/lib/aiTypes.ts:80-82 | a non-empty normalized piece is lower-case, has no comma and no white space at either end |
| AiAccess.AllowListShape | src/lib/aiTypes.ts:74-83 | every entry of the allow-list is non-empty, has no comma, is lower-case and is trimmed |
| AiAccess.AllowListSources | src/lib/aiTypes.ts:79-82 | every entry is a non-empty normalized piece of the variable |
| AiAccess.AllowListIsComplete | src/lib/aiTypes.ts:79-82 | every non-empty normalized piece is on the list |
| AiAccess.DeniedWithoutEmailOrList | src/lib/aiTypes.ts:85-107 | a missing or empty e-mail, an unset variable or an empty list denies, on both the server and the client |
| AiAccess.IsAIAllowed | src/lib/aiTypes.ts:85-97 | allowed exactly when there is a non-empty e-mail whose lower-cased form is on the list; the empty-list check adds nothing |
| AiAccess.UntrimmedEmailIsDenied | src/lib/aiTypes.ts:96 | the e-mail is not trimmed, so one that starts or ends with white space never matches |
| AiAccess.IsAIAllowedClient | src/lib/aiTypes.ts:103-115 | the client check decides as the server check does when both read the same variable |
| AiAccess.SingleAddress | src/lib/aiTypes.ts:74-97 | a variable with one address allows exactly that address, in any ASCII case |
| EmailTemplate.EscapeChar | src/lib/emailTemplate.ts:424-431 | a special character becomes one of the five entities; any other character stays |
| EmailTemplate.EscapeHtml | src/lib/emailTemplate.ts:423-432 | the escaped text is at least as long as the input and at most six times as long |
| EmailTemplate.EscapeAppend | src/lib/emailTemplate.ts:431 | escape(a + b) = escape(a) + escape(b) |
| EmailTemplate.EscapeCleanIsIdentity | src/lib/emailTemplate.ts:431 | text without the five special characters is unchanged |
| EmailTemplate.EscapedHasNoMarkup | src/lib/emailTemplate.ts:423-432 | escaped text contains none of `<`, `>`, `"` or `'` |
| EmailTemplate.AmpersandsBeginEntities | src/lib/emailTemplate.ts:424-431 | every `&` of escaped text begins one of the five entities |
| EmailTemplate.UnescapeEntity | src/lib/emailTemplate.ts:424-430 | each of the five entities reads back as its character |
| EmailTemplate.UnescapeInvertsEscape | src/lib/emailTemplate.ts:423-432 | escaping loses nothing: reading the entities back gives the original text |
| EmailTemplate.EscapingTwiceDoubleEscapes | src/lib/emailTemplate.ts:431 | the single pass is not idempotent: `&` escapes to `&amp;`, and that escapes to `&amp;amp;` |
| EmailTemplate.ColorsFor | src/lib/emailTemplate.ts:10-18 | the table's colours for a known category, the world colours otherwise |
| EmailTemplate.EmojiFor | src/lib/emailTemplate.ts:311 | the table's emoji for a known category, 📰 otherwise |
| EmailTemplate.Fallbacks | src/lib/emailTemplate.ts:10-28 | an unknown category gets the world colours and the newspaper emoji |
| EmailTemplate.TablesAgree | src/lib/emailTemplate.ts:10-28 | the colour and emoji tables cover the same categories |
| EmailTemplate.BiosCapped | src/lib/emailTemplate.ts:348-385 | at most five bios are rendered; a "+ N more" line ends the section exactly when there are more than five, with N = length − 5 |
| EmailTemplate.BioSectionParts | src/lib/emailTemplate.ts:340-385 | the section is the heading, the intro when there is one, the first five bios, and the "more" line when needed |
| EmailTemplate.BioSectionCount | src/lib/emailTemplate.ts:348 | the section renders min(length, 5) bios |
| EmailTemplate.BioSectionEnd | src/lib/emailTemplate.ts:383-385 | the last block is the "more" line exactly when there are more than five bios |
| EmailTemplate.BioBlocksAreAllBios | src/lib/emailTemplate.ts:348-381 | every bio gives one bio block |
| EmailTemplate.ConditionalSections | src/lib/emailTemplate.ts:229-342 | the trends appear only for a non-empty list; the take and the light moment only for a non-empty topic; the quick-hits heading only when the object exists; the intro only when non-empty |
| EmailTemplate.QuickHitsAreTheNonEmptyLines | src/lib/emailTemplate.ts:305-316 | the quick hits are the entries with a non-empty line, in order, each with its emoji and escaped texts |
| EmailTemplate.EveryLineIsRendered | src/lib/emailTemplate.ts:305 | every entry with a non-empty line is rendered |
| EmailTemplate.NoLinesNoQuickHits | src/lib/emailTemplate.ts:300-305 | with no non-empty line only the heading remains |
| EmailTemplate.BriefingOrder | src/lib/emailTemplate.ts:117-180 | the greeting, then one story block per story numbered from 1 with its escaped headline, then one block per theme |
| EmailTemplate.DigestOrder | src/lib/emailTemplate.ts:30-421 | the message reads greeting, numbered stories, themes, the day's highlight, the optional sections, and ends with the bios section under its heading |

## Left out

- Network access: fetching feeds, the `rss-parser` library and its ten-second timeout
  (src/lib/rssParser.ts:6-15, 137). Each source's fetch result is a parameter: the raw
  items or an error message.
- `Promise.allSettled` concurrency (src/lib/rssParser.ts:181-186). The settled outcomes
  are a sequence with one entry per source, in source order.
- MD5 (src/lib/rssParser.ts:19). The hexadecimal digest is a function parameter.
- Date parsing and `toISOString`. The date parser is a function parameter, and an
  unparseable date is an error outcome. Instants are integers in milliseconds, so
  `publishedAt` and `lastUpdated` are integers rather than ISO-8601 strings.
- `Date.now()` and `new Date()`. The clock is a `now` parameter.
- FeedRoute.Serve, FeedRoute.Get, RssParser.PublishedAt and HeroSelector.RecencyScore:
  one instant per request stands for the separate clock reads of the code. Those are
  the TTL test (src/lib/feedCache.ts:24), the default date of an undated item
  (src/lib/rssParser.ts:160), each hero candidate's age (src/lib/heroSelector.ts:91),
  the cache stamp (src/lib/feedCache.ts:39) and the response's `lastUpdated`
  (src/app/api/feeds/route.ts:36). So a fresh entry is stamped at the lookup instant
  rather than after the fetches settle, and expires earlier by the fetch's duration.
  On a miss, `lastUpdated` equals the stored stamp only because one instant stands
  for both reads.
- FeedCache.Cache.GetCachedFeed and FeedCache.Cache.GetCacheAge: the default argument
  `key = 'all'` (src/lib/feedCache.ts:17, 48) is not modelled; every call passes a key.
  The only call site, src/app/api/feeds/route.ts:18, always passes one.
- The regular-expression engine. The hero keyword patterns use only `\b`, literal
  text, `\s*` and `\d+` with the `i` flag. `Patterns` matches exactly that fragment.
  The normaliser's regular expressions are written out as scanning functions. Full
  regular-expression semantics are not modelled.
- Floating-point weights (src/lib/heroSelector.ts:77-84). Every weight is doubled, so
  totals are integers twice the original ones and every comparison is unchanged.
- Strings are sequences of Unicode scalar values. JavaScript counts UTF-16 code units,
  so the 150-, 800- and 16-character limits differ for text outside the Basic
  Multilingual Plane.
- `toLowerCase` folds only ASCII letters here (src/lib/aiTypes.ts:81, 96). Lower-casing
  of other letters is not modelled.
- The `setInterval` timer that runs the rate limiter's sweep (src/lib/rateLimit.ts:14).
  The sweep is a method taking `now`.
- `console` logging everywhere.
- `Object.prototype` keys. A category named like an inherited property (`constructor`)
  would find an inherited value in the colour and emoji tables; the model's tables
  hold only their own entries.
- PreferencesContext's React state, hooks, the loading flag, localStorage persistence
  and the stale-closure timing of its callbacks. The store is a plain class whose
  methods run one after another.
- Preferences.PreferencesStore.ToggleSource: follows the code, not its comment. The
  comment describes the first toggle as disabling the source; the code makes it the
  only enabled source.
- The HTML layout of the e-mail digest, the date formatting with
  `toLocaleDateString`, and sending with Resend. `EmailTemplate` keeps the digest's
  blocks and their escaped texts, not the markup around them.
- The talking points' `conversationStarters` and the briefing's fields that only
  feed layout.
- The AI routes, the Gemini and Claude wrappers, Firestore, Firebase authentication,
  the UI components and pages: none of these is part of this model.
- The `RATE_LIMITS` presets are constants (`AiLimit`, `PreferencesLimit`) with no
  property of their own beyond the general ones.
- FeedRoute.Serve and FeedRoute.Get use the corrected response count, not the slice
  as written (see "## Findings"); `SliceCountAsWritten` keeps the original behaviour.

## Findings

| source | as written | input that shows it | evidently intended | confidence | as-written member | corrected member |
|---|---|---|---|---|---|---|
| src/app/api/feeds/route.ts:13 | `Math.min(parseInt(limit), 300)` lets a negative limit through, and `slice(0, limit)` then counts from the end of the list | `?limit=-1` with all 31 sources giving 10 articles each returns 309 of the 310 articles, more than the 300 cap | a response never holds more than 300 articles, and a negative limit returns none | not executed | FeedRoute.NegativeLimitPassesCap | FeedRoute.ResponseNeverExceedsCap |
