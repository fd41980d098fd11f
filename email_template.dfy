/** The e-mail digest: which blocks the message carries, in which order, with which
    colours and emoji, and the HTML escaping of every text that comes from the AI
    responses. The HTML layout around the blocks, the date formatting and the sending
    are not modelled. */
module EmailTemplate {
  import opened Types
  import opened JsText
  import opened SeqUtil

  // ---------------------------------------------------------------- escaping

  /** The five characters escapeHtml rewrites. */
  predicate IsSpecial(c: char)
  {
    c == '&' || c == '<' || c == '>' || c == '"' || c == '\''
  }

  /** The characters that may not appear in escaped text at all. */
  predicate IsMarkup(c: char)
  {
    c == '<' || c == '>' || c == '"' || c == '\''
  }

  /** The entity written for each special character. */
  const Entities: seq<string> := ["&amp;", "&lt;", "&gt;", "&quot;", "&#039;"]

  /** The replacement of one matched character. */
  function EscapeChar(c: char): (r: string)
    ensures !IsSpecial(c) ==> r == [c]
    ensures IsSpecial(c) ==> r in Entities
  {
    if c == '&' then "&amp;"
    else if c == '<' then "&lt;"
    else if c == '>' then "&gt;"
    else if c == '"' then "&quot;"
    else if c == '\'' then "&#039;"
    else [c]
  }

  /** escapeHtml: one global pass, each special character replaced by its entity. */
  function EscapeHtml(s: string): (r: string)
    ensures |s| <= |r| <= 6 * |s|
    decreases |s|
  {
    if s == [] then [] else EscapeChar(s[0]) + EscapeHtml(s[1..])
  }

  /** Reads entities back; the partner of EscapeHtml. */
  function Unescape(r: string): string
    decreases |r|
  {
    if r == [] then []
    else if |r| >= 5 && r[..5] == "&amp;" then "&" + Unescape(r[5..])
    else if |r| >= 4 && r[..4] == "&lt;" then "<" + Unescape(r[4..])
    else if |r| >= 4 && r[..4] == "&gt;" then ">" + Unescape(r[4..])
    else if |r| >= 6 && r[..6] == "&quot;" then "\"" + Unescape(r[6..])
    else if |r| >= 6 && r[..6] == "&#039;" then "'" + Unescape(r[6..])
    else [r[0]] + Unescape(r[1..])
  }

  predicate NoMarkup(s: string)
  {
    forall i :: 0 <= i < |s| ==> !IsMarkup(s[i])
  }

  /** Escaping distributes over concatenation: each character is replaced on its own. */
  lemma {:induction false} EscapeAppend(a: string, b: string)
    ensures EscapeHtml(a + b) == EscapeHtml(a) + EscapeHtml(b)
    decreases |a|
  {
    if a != [] {
      assert (a + b)[0] == a[0] && (a + b)[1..] == a[1..] + b;
      EscapeAppend(a[1..], b);
    } else {
      assert a + b == b;
    }
  }

  /** Text without special characters comes out unchanged. */
  lemma {:induction false} EscapeCleanIsIdentity(s: string)
    requires forall i :: 0 <= i < |s| ==> !IsSpecial(s[i])
    ensures EscapeHtml(s) == s
    decreases |s|
  {
    if s != [] {
      EscapeCleanIsIdentity(s[1..]);
      assert s == [s[0]] + s[1..];
    }
  }

  /** Escaped text contains none of `<`, `>`, `"` or `'`. */
  lemma {:induction false} EscapedHasNoMarkup(s: string)
    ensures NoMarkup(EscapeHtml(s))
    decreases |s|
  {
    if s != [] {
      EscapedHasNoMarkup(s[1..]);
      var head := EscapeChar(s[0]);
      var rest := EscapeHtml(s[1..]);
      forall i | 0 <= i < |head + rest|
        ensures !IsMarkup((head + rest)[i])
      {
        if i >= |head| {
          assert (head + rest)[i] == rest[i - |head|];
        }
      }
    }
  }

  /** One of the five entities starts at `i`. */
  predicate EntityAt(r: string, i: int)
  {
    exists k :: 0 <= k < |Entities| && OccursAt(r, Entities[k], i)
  }

  /** Every `&` of escaped text begins one of the five entities. */
  lemma {:induction false} AmpersandsBeginEntities(s: string)
    ensures forall i :: 0 <= i < |EscapeHtml(s)| && EscapeHtml(s)[i] == '&' ==> EntityAt(EscapeHtml(s), i)
    decreases |s|
  {
    if s != [] {
      AmpersandsBeginEntities(s[1..]);
      var head := EscapeChar(s[0]);
      var rest := EscapeHtml(s[1..]);
      var r := head + rest;
      assert r == EscapeHtml(s);
      forall i | 0 <= i < |r| && r[i] == '&'
        ensures EntityAt(r, i)
      {
        if i >= |head| {
          assert r[i] == rest[i - |head|];
          EntityShifts(head, rest, i - |head|);
        } else {
          assert head[i] == '&';
          AmpersandOnlyAtFront(s[0], i);
          EntityAtFront(head, rest);
        }
      }
    }
  }

  /** The replacement of a character holds `&` only at its front, and only when it is
      an entity. */
  lemma AmpersandOnlyAtFront(c: char, i: nat)
    requires i < |EscapeChar(c)| && EscapeChar(c)[i] == '&'
    ensures i == 0 && EscapeChar(c) in Entities
  {
  }

  /** An entity at the front of `head` stays an entity in front of anything. */
  lemma EntityAtFront(head: string, rest: string)
    requires head in Entities
    ensures EntityAt(head + rest, 0)
  {
    var k :| 0 <= k < |Entities| && Entities[k] == head;
    assert (head + rest)[..|head|] == head;
    assert OccursAt(head + rest, Entities[k], 0);
  }

  /** An entity at `j` in `rest` is an entity at `|head| + j` after `head`. */
  lemma EntityShifts(head: string, rest: string, j: nat)
    requires EntityAt(rest, j)
    ensures EntityAt(head + rest, |head| + j)
  {
    var r := head + rest;
    var i := |head| + j;
    var k :| 0 <= k < |Entities| && OccursAt(rest, Entities[k], j);
    assert r[i..i + |Entities[k]|] == rest[j..j + |Entities[k]|];
    assert OccursAt(r, Entities[k], i);
  }

  /** Reading back one entity. */
  lemma UnescapeEntity(e: string, c: char, rest: string)
    requires (e, c) in {("&amp;", '&'), ("&lt;", '<'), ("&gt;", '>'), ("&quot;", '"'), ("&#039;", '\'')}
    ensures Unescape(e + rest) == [c] + Unescape(rest)
  {
    var r := e + rest;
    assert r[..|e|] == e && r[|e|..] == rest;
    assert r[1] == e[1];
  }

  /** Reading back one escaped character. */
  lemma UnescapeStep(c: char, rest: string)
    ensures Unescape(EscapeChar(c) + rest) == [c] + Unescape(rest)
  {
    if IsSpecial(c) {
      UnescapeEntity(EscapeChar(c), c, rest);
    } else {
      var r := [c] + rest;
      assert r[0] == c && r[1..] == rest;
    }
  }

  /** Escaping loses nothing: the entities read back give the original text, so no two
      texts escape alike. */
  lemma {:induction false} UnescapeInvertsEscape(s: string)
    ensures Unescape(EscapeHtml(s)) == s
    decreases |s|
  {
    if s != [] {
      UnescapeStep(s[0], EscapeHtml(s[1..]));
      UnescapeInvertsEscape(s[1..]);
      assert s == [s[0]] + s[1..];
    }
  }

  /** Escaping is not idempotent: an ampersand escaped twice is escaped twice. */
  lemma EscapingTwiceDoubleEscapes()
    ensures EscapeHtml("&") == "&amp;"
    ensures EscapeHtml("&amp;") == "&amp;amp;"
  {
    assert "&amp;"[1..] == "amp;";
    assert "amp;"[1..] == "mp;";
    assert "mp;"[1..] == "p;";
    assert "p;"[1..] == ";";
    assert ";"[1..] == "";
  }

  // ---------------------------------------------------------------- the digest

  datatype Colors = Colors(bg: string, text: string)

  const CategoryColors: map<string, Colors> := map[
    "tech" := Colors("#dbeafe", "#1d4ed8"),
    "finance" := Colors("#dcfce7", "#15803d"),
    "uk" := Colors("#fee2e2", "#dc2626"),
    "world" := Colors("#f3e8ff", "#7c3aed"),
    "sport" := Colors("#ffedd5", "#ea580c"),
    "culture" := Colors("#fce7f3", "#db2777"),
    "science" := Colors("#ccfbf1", "#0d9488")]

  const CategoryEmojis: map<string, string> := map[
    "tech" := "\U{1F4BB}",
    "finance" := "\U{1F4C8}",
    "uk" := "\U{1F1EC}\U{1F1E7}",
    "world" := "\U{1F30D}",
    "sport" := "\U{26BD}",
    "culture" := "\U{1F3AD}",
    "science" := "\U{1F52C}"]

  /** The emoji shown for a category the table does not know. */
  const FallbackEmoji: string := "\U{1F4F0}"

  /** `categoryColors[category] || categoryColors.world`. */
  function ColorsFor(category: string): (c: Colors)
    ensures category in CategoryColors ==> c == CategoryColors[category]
    ensures category !in CategoryColors ==> c == Colors("#f3e8ff", "#7c3aed")
  {
    if category in CategoryColors then CategoryColors[category] else CategoryColors["world"]
  }

  /** `categoryEmojis[category] || '📰'`. */
  function EmojiFor(category: string): (e: string)
    ensures category in CategoryEmojis ==> e == CategoryEmojis[category]
    ensures category !in CategoryEmojis ==> e == FallbackEmoji
  {
    if category in CategoryEmojis then CategoryEmojis[category] else FallbackEmoji
  }

  datatype Story = Story(headline: string, insight: string, category: string)
  datatype Briefing = Briefing(greeting: string, topStories: seq<Story>, themes: seq<string>)
  datatype Highlight = Highlight(topic: string, opener: string, insight: string, followUp: string)
  datatype Trend = Trend(theme: string, summary: string, talkingPoint: string)
  datatype Take = Take(topic: string, contrarian: string, caveat: string)
  datatype Light = Light(topic: string, quip: string)
  /** `categories` is the object of one-line hits, as its entries in order; None when
      the object is missing. */
  datatype TalkingPoints = TalkingPoints(
    todayHighlight: Highlight,
    weeklyTrends: seq<Trend>,
    controversialTake: Take,
    lightMoment: Light,
    categories: Option<seq<(string, string)>>)
  datatype Bio = Bio(name: string, role: string, whoTheyAre: string, whyFamous: string, whyInNews: string, category: string)
  datatype WeeklyBios = WeeklyBios(title: string, intro: string, bios: seq<Bio>)

  /** The blocks of the message, with the texts as they are written into it. */
  datatype Block =
    | GreetingBlock(text: string)
    | StoryBlock(number: nat, colors: Colors, category: string, headline: string, insight: string)
    | ThemeBlock(theme: string)
    | HighlightBlock(topic: string, opener: string, insight: string, followUp: string)
    | TrendsHeading
    | TrendBlock(theme: string, summary: string, talkingPoint: string)
    | BoldTakeBlock(topic: string, contrarian: string, caveat: string)
    | LightBlock(topic: string, quip: string)
    | QuickHitsHeading
    | QuickHitBlock(emoji: string, category: string, line: string)
    | BiosHeading(title: string)
    | IntroBlock(text: string)
    | BioBlock(number: nat, background: string, roleColor: string, name: string, role: string,
               whoTheyAre: string, whyFamous: string, whyInNews: string)
    | MoreBiosBlock(count: nat)

  /** How many bios are shown in full. */
  const BiosShown: nat := 5

  function StoryBlocks(stories: seq<Story>): (r: seq<Block>)
    ensures |r| == |stories|
  {
    seq(|stories|, i requires 0 <= i < |stories| =>
      StoryBlock(i + 1, ColorsFor(stories[i].category), EscapeHtml(stories[i].category),
                 EscapeHtml(stories[i].headline), EscapeHtml(stories[i].insight)))
  }

  function ThemeBlocks(themes: seq<string>): (r: seq<Block>)
    ensures |r| == |themes|
  {
    seq(|themes|, i requires 0 <= i < |themes| => ThemeBlock(EscapeHtml(themes[i])))
  }

  /** The weekly patterns: a heading and one block per trend, or nothing at all. */
  function TrendSection(trends: seq<Trend>): seq<Block>
  {
    if |trends| > 0 then
      [TrendsHeading] + seq(|trends|, i requires 0 <= i < |trends| =>
        TrendBlock(EscapeHtml(trends[i].theme), EscapeHtml(trends[i].summary), EscapeHtml(trends[i].talkingPoint)))
    else []
  }

  function TakeSection(take: Take): seq<Block>
  {
    if take.topic != "" then [BoldTakeBlock(EscapeHtml(take.topic), EscapeHtml(take.contrarian), EscapeHtml(take.caveat))]
    else []
  }

  function LightSection(light: Light): seq<Block>
  {
    if light.topic != "" then [LightBlock(EscapeHtml(light.topic), EscapeHtml(light.quip))] else []
  }

  function HasLine(entry: (string, string)): bool
  {
    entry.1 != ""
  }

  /** The block of an entry with a non-empty line. */
  function HitBlock(entry: (string, string)): Block
  {
    QuickHitBlock(EmojiFor(entry.0), EscapeHtml(entry.0), EscapeHtml(entry.1))
  }

  /** `Object.entries(categories).filter(([, line]) => line).map(...)`. */
  function QuickHitBlocks(entries: seq<(string, string)>): (r: seq<Block>)
    ensures |r| == |Filter(entries, HasLine)|
  {
    var kept := Filter(entries, HasLine);
    seq(|kept|, i requires 0 <= i < |kept| => HitBlock(kept[i]))
  }

  /** The quick hits: a heading whenever the object exists, and one block per
      non-empty line. */
  function QuickHitSection(categories: Option<seq<(string, string)>>): seq<Block>
  {
    if categories.Some? then [QuickHitsHeading] + QuickHitBlocks(categories.value) else []
  }

  function BioBlocks(bios: seq<Bio>): (r: seq<Block>)
    ensures |r| == |bios|
  {
    seq(|bios|, i requires 0 <= i < |bios| =>
      BioBlock(i + 1, ColorsFor(bios[i].category).bg, ColorsFor(bios[i].category).text,
               EscapeHtml(bios[i].name), EscapeHtml(bios[i].role), EscapeHtml(bios[i].whoTheyAre),
               EscapeHtml(bios[i].whyFamous), EscapeHtml(bios[i].whyInNews)))
  }

  /** The bios: the heading, the intro when there is one, the first five bios, and a
      count of the rest when there are more. */
  function BioSection(weekly: WeeklyBios): seq<Block>
  {
    var shown := if |weekly.bios| < BiosShown then |weekly.bios| else BiosShown;
    [BiosHeading(EscapeHtml(weekly.title))]
    + (if weekly.intro != "" then [IntroBlock(EscapeHtml(weekly.intro))] else [])
    + BioBlocks(weekly.bios[..shown])
    + (if |weekly.bios| > BiosShown then [MoreBiosBlock(|weekly.bios| - BiosShown)] else [])
  }

  /** The briefing part: the greeting, the numbered stories and the themes. */
  function BriefingSection(briefing: Briefing): seq<Block>
  {
    [GreetingBlock(EscapeHtml(briefing.greeting))] + StoryBlocks(briefing.topStories) + ThemeBlocks(briefing.themes)
  }

  function HighlightOf(h: Highlight): Block
  {
    HighlightBlock(EscapeHtml(h.topic), EscapeHtml(h.opener), EscapeHtml(h.insight), EscapeHtml(h.followUp))
  }

  /** The sections of the talking points after the highlight, each one optional. */
  function OptionalSections(talking: TalkingPoints): seq<Block>
  {
    TrendSection(talking.weeklyTrends)
    + TakeSection(talking.controversialTake)
    + LightSection(talking.lightMoment)
    + QuickHitSection(talking.categories)
  }

  /** generateEmailHTML, as the sequence of its blocks. */
  function Digest(briefing: Briefing, talking: TalkingPoints, weekly: WeeklyBios): seq<Block>
  {
    BriefingSection(briefing) + [HighlightOf(talking.todayHighlight)] + OptionalSections(talking) + BioSection(weekly)
  }

  // ---------------------------------------------------------------- properties

  /** Unknown categories fall back to the world colours and to the newspaper emoji. */
  lemma Fallbacks(category: string)
    requires category !in CategoryColors
    ensures ColorsFor(category) == CategoryColors["world"]
    ensures EmojiFor(category) == FallbackEmoji
  {
  }

  /** The two tables cover the same categories. */
  lemma TablesAgree()
    ensures CategoryColors.Keys == CategoryEmojis.Keys
  {
  }

  function BioBlocksOf(blocks: seq<Block>): nat
  {
    if blocks == [] then 0 else (if blocks[0].BioBlock? then 1 else 0) + BioBlocksOf(blocks[1..])
  }

  lemma {:induction false} BioBlocksOfAppend(a: seq<Block>, b: seq<Block>)
    ensures BioBlocksOf(a + b) == BioBlocksOf(a) + BioBlocksOf(b)
    decreases |a|
  {
    if a != [] {
      assert (a + b)[1..] == a[1..] + b;
      BioBlocksOfAppend(a[1..], b);
    } else {
      assert a + b == b;
    }
  }

  /** Every bio gives one bio block. */
  lemma BioBlocksAreAllBios(bios: seq<Bio>)
    ensures BioBlocksOf(BioBlocks(bios)) == |bios|
  {
    CountAllBioBlocks(BioBlocks(bios));
  }

  /** A run made only of bio blocks counts its length, whatever their numbering. */
  lemma {:induction false} CountAllBioBlocks(blocks: seq<Block>)
    requires forall i :: 0 <= i < |blocks| ==> blocks[i].BioBlock?
    ensures BioBlocksOf(blocks) == |blocks|
    decreases |blocks|
  {
    if blocks != [] {
      CountAllBioBlocks(blocks[1..]);
    }
  }

  /** At most five bios are rendered, the first five in order, and a "+ N more" line
      follows exactly when there are more than five, with N the number left out. */
  lemma BiosCapped(weekly: WeeklyBios)
    ensures var section := BioSection(weekly);
            var n := |weekly.bios|;
            && BioBlocksOf(section) == (if n < 5 then n else 5)
            && (n > 5 <==> section[|section| - 1].MoreBiosBlock?)
            && (n > 5 ==> section[|section| - 1] == MoreBiosBlock(n - 5))
  {
    BioSectionCount(weekly);
    BioSectionEnd(weekly);
  }

  /** The parts of the bios section, in order. */
  lemma BioSectionParts(weekly: WeeklyBios)
    ensures var n := |weekly.bios|;
            var shown := if n < BiosShown then n else BiosShown;
            BioSection(weekly)
              == [BiosHeading(EscapeHtml(weekly.title))]
                 + (if weekly.intro != "" then [IntroBlock(EscapeHtml(weekly.intro))] else [])
                 + BioBlocks(weekly.bios[..shown])
                 + (if n > BiosShown then [MoreBiosBlock(n - BiosShown)] else [])
  {
  }

  /** A run with no bio block counts none. */
  lemma {:induction false} CountNoBioBlocks(blocks: seq<Block>)
    requires forall i :: 0 <= i < |blocks| ==> !blocks[i].BioBlock?
    ensures BioBlocksOf(blocks) == 0
    decreases |blocks|
  {
    if blocks != [] {
      CountNoBioBlocks(blocks[1..]);
    }
  }

  /** Bio blocks framed by other blocks count as many as the bio blocks. */
  lemma CountFramedBios(front: seq<Block>, body: seq<Block>, more: seq<Block>)
    requires forall i :: 0 <= i < |front| ==> !front[i].BioBlock?
    requires forall i :: 0 <= i < |body| ==> body[i].BioBlock?
    requires forall i :: 0 <= i < |more| ==> !more[i].BioBlock?
    ensures BioBlocksOf(front + body + more) == |body|
  {
    BioBlocksOfAppend(front + body, more);
    BioBlocksOfAppend(front, body);
    CountNoBioBlocks(front);
    CountNoBioBlocks(more);
    CountAllBioBlocks(body);
  }

  lemma BioSectionCount(weekly: WeeklyBios)
    ensures BioBlocksOf(BioSection(weekly)) == if |weekly.bios| < 5 then |weekly.bios| else 5
  {
    var n := |weekly.bios|;
    var shown := if n < BiosShown then n else BiosShown;
    var front := [BiosHeading(EscapeHtml(weekly.title))]
                 + (if weekly.intro != "" then [IntroBlock(EscapeHtml(weekly.intro))] else []);
    var body := BioBlocks(weekly.bios[..shown]);
    var more := if n > BiosShown then [MoreBiosBlock(n - BiosShown)] else [];
    BioSectionParts(weekly);
    CountFramedBios(front, body, more);
  }

  lemma BioSectionEnd(weekly: WeeklyBios)
    ensures var section := BioSection(weekly);
            var n := |weekly.bios|;
            && (n > 5 <==> section[|section| - 1].MoreBiosBlock?)
            && (n > 5 ==> section[|section| - 1] == MoreBiosBlock(n - 5))
  {
    var n := |weekly.bios|;
    var shown := if n < BiosShown then n else BiosShown;
    var front := [BiosHeading(EscapeHtml(weekly.title))]
                 + (if weekly.intro != "" then [IntroBlock(EscapeHtml(weekly.intro))] else []);
    var body := BioBlocks(weekly.bios[..shown]);
    BioSectionParts(weekly);
    if n <= BiosShown {
      var empty: seq<Block> := [];
      var kept := front + body;
      assert BioSection(weekly) == kept + empty;
      assert !kept[|kept| - 1].MoreBiosBlock?;
    }
  }

  /** The optional sections appear exactly when their content is there. */
  lemma ConditionalSections(talking: TalkingPoints, weekly: WeeklyBios)
    ensures TrendsHeading in TrendSection(talking.weeklyTrends) <==> |talking.weeklyTrends| > 0
    ensures TakeSection(talking.controversialTake) != [] <==> talking.controversialTake.topic != ""
    ensures LightSection(talking.lightMoment) != [] <==> talking.lightMoment.topic != ""
    ensures QuickHitsHeading in QuickHitSection(talking.categories) <==> talking.categories.Some?
    ensures IntroBlock(EscapeHtml(weekly.intro)) in BioSection(weekly) <==> weekly.intro != ""
  {
    var trends := talking.weeklyTrends;
    if |trends| > 0 {
      assert TrendSection(trends)[0] == TrendsHeading;
    }
    if talking.categories.Some? {
      assert QuickHitSection(talking.categories)[0] == QuickHitsHeading;
    }
    var n := |weekly.bios|;
    var shown := if n < BiosShown then n else BiosShown;
    var head := [BiosHeading(EscapeHtml(weekly.title))];
    var intro := if weekly.intro != "" then [IntroBlock(EscapeHtml(weekly.intro))] else [];
    var body := BioBlocks(weekly.bios[..shown]);
    var more := if n > BiosShown then [MoreBiosBlock(n - BiosShown)] else [];
    assert BioSection(weekly) == head + intro + body + more;
    if weekly.intro != "" {
      assert BioSection(weekly)[1] == IntroBlock(EscapeHtml(weekly.intro));
    }
  }

  /** The quick hits are the entries with a non-empty line, in order, each with its
      category's emoji and its texts escaped. */
  lemma QuickHitsAreTheNonEmptyLines(entries: seq<(string, string)>)
    ensures var kept := Filter(entries, HasLine);
            && IsSubsequence(kept, entries)
            && forall i :: 0 <= i < |kept| ==>
                 kept[i].1 != "" && QuickHitBlocks(entries)[i] == QuickHitBlock(EmojiFor(kept[i].0), EscapeHtml(kept[i].0), EscapeHtml(kept[i].1))
  {
    var kept := Filter(entries, HasLine);
    FilterMembers(entries, HasLine);
    FilterIsSubsequence(entries, HasLine);
    forall i | 0 <= i < |kept|
      ensures kept[i].1 != ""
    {
      assert HasLine(kept[i]);
    }
  }

  /** Every entry with a non-empty line is rendered. */
  lemma EveryLineIsRendered(entries: seq<(string, string)>, k: nat)
    requires k < |entries| && entries[k].1 != ""
    ensures HitBlock(entries[k]) in QuickHitBlocks(entries)
  {
    var kept := Filter(entries, HasLine);
    FilterMembers(entries, HasLine);
    assert HasLine(entries[k]);
    var i :| 0 <= i < |kept| && kept[i] == entries[k];
    assert QuickHitBlocks(entries)[i] == HitBlock(entries[k]);
  }

  /** With no non-empty line there are no quick hits, only their heading. */
  lemma NoLinesNoQuickHits(entries: seq<(string, string)>)
    requires forall k :: 0 <= k < |entries| ==> entries[k].1 == ""
    ensures QuickHitBlocks(entries) == []
    ensures QuickHitSection(Some(entries)) == [QuickHitsHeading]
  {
    FilterNone(entries, HasLine);
  }

  /** The briefing part is the greeting, then the stories numbered from 1, then the themes. */
  lemma BriefingOrder(briefing: Briefing)
    ensures var f := BriefingSection(briefing);
            var n := |briefing.topStories|;
            var m := |briefing.themes|;
            && |f| == 1 + n + m
            && f[0] == GreetingBlock(EscapeHtml(briefing.greeting))
            && (forall i :: 0 <= i < n ==>
                  f[1 + i].StoryBlock? && f[1 + i].number == i + 1
                  && f[1 + i].headline == EscapeHtml(briefing.topStories[i].headline))
            && (forall i :: 0 <= i < m ==> f[1 + n + i] == ThemeBlock(EscapeHtml(briefing.themes[i])))
  {
    var n := |briefing.topStories|;
    var stories := StoryBlocks(briefing.topStories);
    var themes := ThemeBlocks(briefing.themes);
    var f := BriefingSection(briefing);
    assert forall i :: 0 <= i < n ==> f[1 + i] == stories[i];
    assert forall i :: 0 <= i < |themes| ==> f[1 + n + i] == themes[i];
  }

  /** Where the parts of a four-part message sit. */
  lemma PartsLayout(f: seq<Block>, h: Block, mid: seq<Block>, last: seq<Block>)
    ensures var d := f + [h] + mid + last;
            && |d| == |f| + 1 + |mid| + |last|
            && (forall k :: 0 <= k < |f| ==> d[k] == f[k])
            && d[|f|] == h
            && d[|d| - |last|..] == last
  {
  }

  /** The message reads in the order of the template: the greeting, the numbered
      stories, the themes, the highlight of the day, the optional sections, and the bios
      section last. */
  lemma DigestOrder(briefing: Briefing, talking: TalkingPoints, weekly: WeeklyBios)
    ensures var d := Digest(briefing, talking, weekly);
            var n := |briefing.topStories|;
            var m := |briefing.themes|;
            var bios := BioSection(weekly);
            && |d| >= n + m + 2 + |bios|
            && d[0] == GreetingBlock(EscapeHtml(briefing.greeting))
            && (forall i :: 0 <= i < n ==>
                  d[1 + i].StoryBlock? && d[1 + i].number == i + 1
                  && d[1 + i].headline == EscapeHtml(briefing.topStories[i].headline))
            && (forall i :: 0 <= i < m ==> d[1 + n + i] == ThemeBlock(EscapeHtml(briefing.themes[i])))
            && d[1 + n + m].HighlightBlock?
            && d[1 + n + m].topic == EscapeHtml(talking.todayHighlight.topic)
            && d[|d| - |bios|..] == bios
            && d[|d| - |bios|] == BiosHeading(EscapeHtml(weekly.title))
  {
    BriefingOrder(briefing);
    PartsLayout(BriefingSection(briefing), HighlightOf(talking.todayHighlight),
                OptionalSections(talking), BioSection(weekly));
  }
}
