/** The feed normaliser: article ids, image choice, entity decoding, HTML clean-up, the
    full and short descriptions, and the mapping of one feed's raw items to articles. The
    regular expressions of the original are written out as the scans they perform. */
module RssParser {
  import opened Types
  import opened JsText
  import opened SeqUtil
  import Patterns

  /** One item as the feed library hands it over; a field the feed lacks is None. */
  datatype RawItem = RawItem(
    title: Option<string>,
    link: Option<string>,
    pubDate: Option<string>,
    content: Option<string>,
    contentSnippet: Option<string>,
    contentEncoded: Option<string>,
    mediaContentUrl: Option<string>,
    mediaThumbnailUrl: Option<string>,
    enclosureUrl: Option<string>,
    creator: Option<string>,
    author: Option<string>)

  /** `s || ''` */
  function OrEmpty(s: Option<string>): (r: string)
    ensures Truthy(s) ==> r == s.value
    ensures !Truthy(s) ==> r == ""
  {
    if s.Some? then s.value else ""
  }

  // ---------------------------------------------------------------- article id

  const ArticleIdLength: nat := 16

  /** The string that is hashed: source id, a colon, the link. */
  function ArticleKey(sourceId: string, url: string): string
  {
    sourceId + ":" + url
  }

  /** createArticleId: the first 16 characters of the hexadecimal MD5 digest of the key;
      the digest is a parameter. */
  function CreateArticleId(url: string, sourceId: string, md5Hex: string -> string): (id: string)
    ensures |md5Hex(ArticleKey(sourceId, url))| >= ArticleIdLength ==> |id| == ArticleIdLength
    ensures id <= md5Hex(ArticleKey(sourceId, url))
  {
    var digest := md5Hex(ArticleKey(sourceId, url));
    digest[..Min(ArticleIdLength, |digest|)]
  }

  /** When source ids contain no colon, different (source, link) pairs hash different
      keys, so one link in two feeds gets two ids unless the digests collide. */
  lemma ArticleKeyIsInjective(s1: string, u1: string, s2: string, u2: string)
    requires ':' !in s1 && ':' !in s2
    requires ArticleKey(s1, u1) == ArticleKey(s2, u2)
    ensures s1 == s2 && u1 == u2
  {
    var k := ArticleKey(s1, u1);
    assert k[|s1|] == ':' && k[|s2|] == ':';
    assert forall m :: 0 <= m < |s1| ==> k[m] == s1[m];
    assert forall m :: 0 <= m < |s2| ==> k[m] == s2[m];
    assert |s1| == |s2|;
    assert s1 == k[..|s1|] && s2 == k[..|s2|];
    assert u1 == k[|s1| + 1..] && u2 == k[|s2| + 1..];
  }

  // ---------------------------------------------------------------- image url

  const ImageExtensions: seq<string> := [".jpg", ".jpeg", ".png", ".gif", ".webp"]

  /** `/\.(jpg|jpeg|png|gif|webp)/i` finds a match somewhere in the url. */
  predicate HasImageExtension(url: string)
  {
    exists k :: 0 <= k < |ImageExtensions| && Patterns.Test([Patterns.Lit(ImageExtensions[k])], url)
  }

  const ImgOpen: string := "<img"
  const SrcOpen: string := "src=\""

  /** Where `[^x]*` stops when it starts at `from`: the first `x` at or after it, or the end. */
  function StopAt(s: string, x: char, from: nat): (k: nat)
    requires from <= |s|
    ensures from <= k <= |s|
    ensures forall m :: from <= m < k ==> s[m] != x
    ensures k < |s| ==> s[k] == x
    decreases |s| - from
  {
    if from == |s| || s[from] == x then from else StopAt(s, x, from + 1)
  }

  /** `src="([^"]+)"` matches at `j`: the five opening characters, at least one character
      other than `"`, then a `"`. */
  predicate SrcMatchAt(s: string, j: int)
  {
    OccursAt(s, SrcOpen, j) && j + 5 < StopAt(s, '"', j + 5) < |s|
  }

  /** The group captured by a match at `j`: everything up to the closing quote. */
  function SrcCapture(s: string, j: int): string
    requires SrcMatchAt(s, j)
  {
    s[j + 5..StopAt(s, '"', j + 5)]
  }

  /** The capture is non-empty and quote-free, and `src="` + capture + `"` is what matched. */
  lemma SrcCaptureShape(s: string, j: int)
    requires SrcMatchAt(s, j)
    ensures var v := SrcCapture(s, j); v != [] && '"' !in v && OccursAt(s, SrcOpen + v + "\"", j)
  {
    var q := StopAt(s, '"', j + 5);
    var v := s[j + 5..q];
    assert s[j..j + 5] == SrcOpen;
    assert s[j..q + 1] == SrcOpen + v + "\"";
    assert forall m :: 0 <= m < |v| ==> v[m] == s[j + 5 + m];
  }

  /** `[^x]*` started at `from` stops at the first `x`. */
  lemma StopAtFirst(s: string, x: char, from: nat, k: nat)
    requires from <= k < |s| && s[k] == x
    requires forall m :: from <= m < k ==> s[m] != x
    ensures StopAt(s, x, from) == k
  {
  }

  /** Every occurrence of `src="v"` with a non-empty, quote-free `v` is a match capturing `v`. */
  lemma SrcOccurrenceIsMatch(s: string, v: string, j: int)
    requires v != [] && '"' !in v && OccursAt(s, SrcOpen + v + "\"", j)
    ensures SrcMatchAt(s, j) && SrcCapture(s, j) == v
  {
    var t := SrcOpen + v + "\"";
    var e := j + 5 + |v|;
    assert |SrcOpen| == 5 && |t| == |v| + 6;
    forall m | 0 <= m < |t|
      ensures s[j + m] == t[m]
    {
      assert s[j..j + |t|][m] == s[j + m];
    }
    assert s[j..j + 5] == SrcOpen by {
      forall m | 0 <= m < 5
        ensures s[j..j + 5][m] == SrcOpen[m]
      {
        assert s[j + m] == t[m];
      }
    }
    assert s[j + 5..e] == v by {
      forall m | 0 <= m < |v|
        ensures s[j + 5..e][m] == v[m]
      {
        assert s[j + 5 + m] == t[5 + m];
      }
    }
    assert s[e] == t[5 + |v|];
    StopAtFirst(s, '"', j + 5, e);
  }

  /** No `src="…"` match starts between `lo` and `hi`. */
  predicate NoSrcMatch(s: string, lo: int, hi: int)
  {
    forall j :: lo <= j <= hi ==> !SrcMatchAt(s, j)
  }

  /** `src="([^"]+)"` tried at positions `j` from `hi` down to `lo`, the order in which
      backtracking out of the greedy `[^>]+` visits them: the capture of the last match
      in the range. */
  function SrcAtOrBefore(s: string, lo: nat, hi: int): (r: Option<string>)
    ensures r.None? <==> NoSrcMatch(s, lo, hi)
    ensures r.Some? ==> exists j :: lo <= j <= hi && SrcMatchAt(s, j) && r.value == SrcCapture(s, j)
                                    && NoSrcMatch(s, j + 1, hi)
    decreases hi - lo + 1
  {
    if hi < lo then None
    else if SrcMatchAt(s, hi) then
      SrcScanHit(s, lo, hi);
      Some(SrcCapture(s, hi))
    else
      var r := SrcAtOrBefore(s, lo, hi - 1);
      SrcScanMiss(s, lo, hi, r);
      r
  }

  /** A match at `hi` is the last one in the range and is what the scan returns. */
  lemma SrcScanHit(s: string, lo: nat, hi: int)
    requires lo <= hi && SrcMatchAt(s, hi)
    ensures !NoSrcMatch(s, lo, hi) && NoSrcMatch(s, hi + 1, hi)
  {
  }

  /** Without a match at `hi`, the answer for the range up to `hi - 1` is the answer for
      the range up to `hi`. */
  lemma SrcScanMiss(s: string, lo: nat, hi: int, r: Option<string>)
    requires lo <= hi && !SrcMatchAt(s, hi)
    requires r.None? <==> NoSrcMatch(s, lo, hi - 1)
    requires r.Some? ==> exists j :: lo <= j <= hi - 1 && SrcMatchAt(s, j) && r.value == SrcCapture(s, j)
                                     && NoSrcMatch(s, j + 1, hi - 1)
    ensures r.None? <==> NoSrcMatch(s, lo, hi)
    ensures r.Some? ==> exists j :: lo <= j <= hi && SrcMatchAt(s, j) && r.value == SrcCapture(s, j)
                                    && NoSrcMatch(s, j + 1, hi)
  {
    if r.Some? {
      var j :| lo <= j <= hi - 1 && SrcMatchAt(s, j) && r.value == SrcCapture(s, j)
               && NoSrcMatch(s, j + 1, hi - 1);
      NoSrcMatchExtend(s, j + 1, hi);
      assert !NoSrcMatch(s, lo, hi) by {
        assert lo <= j <= hi && SrcMatchAt(s, j);
      }
    } else {
      NoSrcMatchExtend(s, lo, hi);
    }
  }

  /** A range without a match grows by one position that is not a match. */
  lemma NoSrcMatchExtend(s: string, lo: int, hi: int)
    requires NoSrcMatch(s, lo, hi - 1) && !SrcMatchAt(s, hi)
    ensures NoSrcMatch(s, lo, hi)
  {
  }

  /** `<img[^>]+src="([^"]+)"` matches with its `<img` at `i`: a `src="…"` match starts
      after at least one more character of the tag and no later than its first `>`. */
  predicate ImgMatchAt(s: string, i: int)
  {
    OccursAt(s, ImgOpen, i) && !NoSrcMatch(s, i + 5, StopAt(s, '>', i + 4))
  }

  /** The capture of the match whose `<img` is at `i`. */
  function ImgCapture(s: string, i: int): (r: Option<string>)
    requires OccursAt(s, ImgOpen, i)
    ensures r.Some? <==> ImgMatchAt(s, i)
  {
    SrcAtOrBefore(s, i + 5, StopAt(s, '>', i + 4))
  }

  /** `s.match(/<img[^>]+src="([^"]+)"/)?.[1]`, looked for from position `from` on: None
      exactly when no `<img` tag from there on holds a match; otherwise the capture of
      the leftmost one. */
  function FirstImgSrcFrom(s: string, from: nat): (r: Option<string>)
    requires from <= |s|
    ensures r.None? <==> forall i :: from <= i ==> !ImgMatchAt(s, i)
    ensures r.Some? ==> exists i :: from <= i && ImgMatchAt(s, i) && r == ImgCapture(s, i)
                                    && forall k :: from <= k < i ==> !ImgMatchAt(s, k)
    decreases |s| - from
  {
    if from + |ImgOpen| > |s| then None
    else if OccursAt(s, ImgOpen, from) && ImgCapture(s, from).Some? then ImgCapture(s, from)
    else FirstImgSrcFrom(s, from + 1)
  }

  /** The capture is non-empty and quote-free, and comes from a `src="…"` inside an
      `<img` tag; text without `<img` has none. */
  lemma ImgCaptureShape(s: string, r: Option<string>)
    requires r.Some? ==> exists i :: 0 <= i && ImgMatchAt(s, i) && r == ImgCapture(s, i)
    ensures r.Some? ==> r.value != [] && '"' !in r.value
    ensures r.Some? ==> Contains(s, ImgOpen) && Contains(s, SrcOpen + r.value + "\"")
  {
    if r.None? { return; }
    var i :| 0 <= i && ImgMatchAt(s, i) && r == ImgCapture(s, i);
    var j :| i + 5 <= j <= StopAt(s, '>', i + 4) && SrcMatchAt(s, j) && r.value == SrcCapture(s, j);
    SrcCaptureShape(s, j);
    assert OccursAt(s, ImgOpen, i);
    assert OccursAt(s, SrcOpen + r.value + "\"", j);
  }

  function FirstImgSrc(s: string): (r: Option<string>)
    ensures r.None? <==> forall i :: 0 <= i ==> !ImgMatchAt(s, i)
    ensures r.Some? ==> exists i :: 0 <= i && ImgMatchAt(s, i) && r == ImgCapture(s, i)
                                    && forall k :: 0 <= k < i ==> !ImgMatchAt(s, k)
    ensures r.Some? ==> r.value != [] && '"' !in r.value
    ensures r.Some? ==> Contains(s, ImgOpen) && Contains(s, SrcOpen + r.value + "\"")
    ensures !Contains(s, ImgOpen) ==> r.None?
  {
    var r := FirstImgSrcFrom(s, 0);
    ImgCaptureShape(s, r);
    r
  }

  /** Completeness: a text with an `<img` tag holding `src="v"` (non-empty, quote-free
      `v`) after at least one more character and before the tag's first `>` always
      yields an image source, taken from that tag or from an earlier one. */
  lemma ImgTagWithSrcIsFound(s: string, i: nat, j: nat, v: string)
    requires OccursAt(s, ImgOpen, i)
    requires v != [] && '"' !in v && i + 5 <= j <= StopAt(s, '>', i + 4)
    requires OccursAt(s, SrcOpen + v + "\"", j)
    ensures ImgMatchAt(s, i)
    ensures FirstImgSrc(s).Some?
    ensures (forall k :: 0 <= k < i ==> !ImgMatchAt(s, k)) ==> FirstImgSrc(s) == ImgCapture(s, i)
  {
    SrcOccurrenceIsMatch(s, v, j);
    assert !NoSrcMatch(s, i + 5, StopAt(s, '>', i + 4));
    assert ImgMatchAt(s, i);
    if forall k :: 0 <= k < i ==> !ImgMatchAt(s, k) {
      var r := FirstImgSrc(s);
      var i' :| 0 <= i' && ImgMatchAt(s, i') && r == ImgCapture(s, i')
                && forall k :: 0 <= k < i' ==> !ImgMatchAt(s, k);
      assert i' == i;
    }
  }

  /** extractImageUrl: the first present value among the media content url, the media
      thumbnail url, an enclosure url that names an image file, and the first image
      source in the content and then in the encoded content; never an empty string. */
  function ExtractImageUrl(item: RawItem): (r: Option<string>)
    ensures r.Some? ==> r.value != ""
    ensures Truthy(item.mediaContentUrl) ==> r == item.mediaContentUrl
    ensures !Truthy(item.mediaContentUrl) && Truthy(item.mediaThumbnailUrl) ==> r == item.mediaThumbnailUrl
    ensures r.None? ==> !Truthy(item.mediaContentUrl) && !Truthy(item.mediaThumbnailUrl)
                        && !(Truthy(item.enclosureUrl) && HasImageExtension(item.enclosureUrl.value))
                        && FirstImgSrc(OrEmpty(item.content)).None?
                        && FirstImgSrc(OrEmpty(item.contentEncoded)).None?
  {
    if Truthy(item.mediaContentUrl) then item.mediaContentUrl
    else if Truthy(item.mediaThumbnailUrl) then item.mediaThumbnailUrl
    else if Truthy(item.enclosureUrl) && HasImageExtension(item.enclosureUrl.value) then item.enclosureUrl
    else if Truthy(item.content) && FirstImgSrc(item.content.value).Some? then FirstImgSrc(item.content.value)
    else if Truthy(item.contentEncoded) && FirstImgSrc(item.contentEncoded.value).Some? then FirstImgSrc(item.contentEncoded.value)
    else None
  }

  /** The five candidates in the order they are tried. */
  function ImageCandidates(item: RawItem): seq<Option<string>>
  {
    [ item.mediaContentUrl,
      item.mediaThumbnailUrl,
      if Truthy(item.enclosureUrl) && HasImageExtension(item.enclosureUrl.value) then item.enclosureUrl else None,
      FirstImgSrc(OrEmpty(item.content)),
      FirstImgSrc(OrEmpty(item.contentEncoded)) ]
  }

  /** The first truthy value of a list. */
  function FirstTruthy(xs: seq<Option<string>>): (r: Option<string>)
    ensures r.Some? ==> r.value != "" && r in xs
    ensures r.None? <==> forall k :: 0 <= k < |xs| ==> !Truthy(xs[k])
  {
    if xs == [] then None
    else if Truthy(xs[0]) then xs[0]
    else
      var r := FirstTruthy(xs[1..]);
      assert forall k :: 1 <= k < |xs| ==> xs[k] == xs[1..][k - 1];
      r
  }

  lemma FirstTruthyCons(x: Option<string>, xs: seq<Option<string>>)
    ensures FirstTruthy([x] + xs) == if Truthy(x) then x else FirstTruthy(xs)
  {
    assert ([x] + xs)[1..] == xs;
  }

  /** The first truthy value of five, written out. */
  lemma FirstTruthyOfFive(x0: Option<string>, x1: Option<string>, x2: Option<string>,
                          x3: Option<string>, x4: Option<string>)
    ensures FirstTruthy([x0, x1, x2, x3, x4])
            == if Truthy(x0) then x0 else if Truthy(x1) then x1 else if Truthy(x2) then x2
               else if Truthy(x3) then x3 else if Truthy(x4) then x4 else None
  {
    var c := [x0, x1, x2, x3, x4];
    assert c == [x0] + ([x1] + ([x2] + ([x3] + ([x4] + []))));
    FirstTruthyCons(x4, []);
    FirstTruthyCons(x3, [x4] + []);
    FirstTruthyCons(x2, [x3] + ([x4] + []));
    FirstTruthyCons(x1, [x2] + ([x3] + ([x4] + [])));
    FirstTruthyCons(x0, [x1] + ([x2] + ([x3] + ([x4] + []))));
  }

  /** An image source is found in a text only when the text is truthy. */
  lemma FirstImgSrcOfOrEmpty(t: Option<string>)
    ensures Truthy(FirstImgSrc(OrEmpty(t))) <==> Truthy(t) && FirstImgSrc(t.value).Some?
    ensures Truthy(t) ==> FirstImgSrc(OrEmpty(t)) == FirstImgSrc(t.value)
  {
    assert |ImgOpen| == 4 && !Contains("", ImgOpen);
  }

  /** The chosen image is the first of the candidates that is present. */
  lemma ExtractImageUrlIsFirstCandidate(item: RawItem)
    ensures ExtractImageUrl(item) == FirstTruthy(ImageCandidates(item))
  {
    var c := ImageCandidates(item);
    FirstTruthyOfFive(c[0], c[1], c[2], c[3], c[4]);
    assert c == [c[0], c[1], c[2], c[3], c[4]];
    FirstImgSrcOfOrEmpty(item.content);
    FirstImgSrcOfOrEmpty(item.contentEncoded);
  }

  // ---------------------------------------------------------------- entities

  /** The replacements of decodeHtmlEntities, in the order they are applied. */
  const EntityTable: seq<(string, string)> := [
    ("&amp;", "&"), ("&lt;", "<"), ("&gt;", ">"), ("&quot;", "\""), ("&#39;", "'"),
    ("&nbsp;", " "), ("&#x27;", "'"), ("&#x2F;", "/"), ("&ldquo;", "\""), ("&rdquo;", "\""),
    ("&lsquo;", "'"), ("&rsquo;", "'"), ("&mdash;", "\U{2014}"), ("&ndash;", "\U{2013}")
  ]

  /** Every pattern is an entity: it starts with '&', and no replacement is longer than
      its pattern. */
  predicate EntityReplacements(table: seq<(string, string)>)
  {
    forall k :: 0 <= k < |table| ==>
      table[k].0 != [] && table[k].0[0] == '&' && |table[k].1| <= |table[k].0|
  }

  lemma EntityTableShape()
    ensures |EntityTable| == 14 && EntityTable[0] == ("&amp;", "&")
    ensures EntityTable[1] == ("&lt;", "<") && EntityTable[2] == ("&gt;", ">")
    ensures EntityReplacements(EntityTable)
  {
  }

  /** Each replacement applied to the whole text in turn. */
  function ApplyReplacements(s: string, table: seq<(string, string)>): string
    requires forall k :: 0 <= k < |table| ==> table[k].0 != []
    decreases |table|
  {
    if table == [] then s
    else ApplyReplacements(ReplaceAll(s, table[0].0, table[0].1), table[1..])
  }

  /** decodeHtmlEntities: the table's replacements, each over the whole text, in order.
      Every pattern starts with '&' and is at least as long as its replacement. */
  function DecodeHtmlEntities(s: string): (r: string)
    ensures '&' !in s ==> r == s
  {
    EntityTableShape();
    ApplyReplacementsWithoutAmpersand(s, EntityTable);
    ApplyReplacements(s, EntityTable)
  }

  lemma {:induction false} ApplyReplacementsWithoutAmpersand(s: string, table: seq<(string, string)>)
    requires EntityReplacements(table)
    ensures '&' !in s ==> ApplyReplacements(s, table) == s
    decreases |table|
  {
    if table != [] && '&' !in s {
      ReplaceAllWithoutFirstChar(s, table[0].0, table[0].1);
      ApplyReplacementsWithoutAmpersand(s, table[1..]);
    }
  }

  lemma {:induction false} ApplyReplacementsShortens(s: string, table: seq<(string, string)>)
    requires EntityReplacements(table)
    ensures |ApplyReplacements(s, table)| <= |s|
    decreases |table|
  {
    if table != [] {
      ReplaceAllShortens(s, table[0].0, table[0].1);
      ApplyReplacementsShortens(ReplaceAll(s, table[0].0, table[0].1), table[1..]);
    }
  }

  /** Decoding never makes a text longer. */
  lemma DecodeNeverLengthens(s: string)
    ensures |DecodeHtmlEntities(s)| <= |s|
  {
    EntityTableShape();
    ApplyReplacementsShortens(s, EntityTable);
  }

  /** `&amp;` goes first, so an escaped entity is decoded twice: `&amp;lt;` becomes `<`. */
  lemma DecodeIsAppliedTwice()
    ensures DecodeHtmlEntities("&amp;lt;") == "<"
  {
    EntityTableShape();
    var t := EntityTable;
    assert ReplaceAll("&amp;lt;", "&amp;", "&") == "&lt;" by {
      assert "&amp;lt;"[..5] == "&amp;";
      assert "&amp;lt;"[5..] == "lt;";
      assert ReplaceAll("lt;", "&amp;", "&") == "lt;";
    }
    assert ReplaceAll("&lt;", "&lt;", "<") == "<" by {
      assert "&lt;"[..4] == "&lt;";
      assert "&lt;"[4..] == [];
    }
    assert t[1..][1..] == EntityTable[2..];
    DecodeTail("<", EntityTable[2..]);
  }

  lemma DecodeTail(s: string, table: seq<(string, string)>)
    requires EntityReplacements(table) && s == "<"
    ensures ApplyReplacements(s, table) == s
  {
    ApplyReplacementsWithoutAmpersand(s, table);
  }

  // ---------------------------------------------------------------- cleanHtml

  /** `s` begins with `p`, up to ASCII case. */
  predicate StartsWithIgnoreCase(s: string, p: string)
  {
    |p| <= |s| && EqualsIgnoreCase(s[..|p|], p)
  }

  /** Length of a match of `/<a[^>]*>Continue reading[^<]*<\/a>/i` at the start of `s`.
      `[^>]*` can only end at the first '>', and `[^<]*` only at the first '<' after it. */
  function ContinueLinkLength(s: string): (n: Option<nat>)
    ensures n.Some? ==> 0 < n.value <= |s|
  {
    if !StartsWithIgnoreCase(s, "<a") then None
    else
      var g := StopAt(s, '>', 2);
      if g == |s| || !StartsWithIgnoreCase(s[g + 1..], "continue reading") then None
      else
        var h := StopAt(s, '<', g + 17);
        if StartsWithIgnoreCase(s[h..], "</a>") then Some(h + 4) else None
  }

  /** Step 1: every "Continue reading" link removed, scanning left to right. */
  function RemoveContinueLinks(s: string): (r: string)
    ensures |r| <= |s|
    decreases |s|
  {
    if s == [] then []
    else
      match ContinueLinkLength(s)
      case Some(n) => RemoveContinueLinks(s[n..])
      case None => [s[0]] + RemoveContinueLinks(s[1..])
  }

  /** The number of white-space characters at the start of `s`. */
  function SpaceRun(s: string, from: nat): (k: nat)
    requires from <= |s|
    ensures from <= k <= |s|
    ensures forall m :: from <= m < k ==> IsWhitespace(s[m])
    ensures k < |s| ==> !IsWhitespace(s[k])
    decreases |s| - from
  {
    if from < |s| && IsWhitespace(s[from]) then SpaceRun(s, from + 1) else from
  }

  /** Length of a match of `/<\/p>\s*<p>/i` at the start of `s`. */
  function ParagraphBreakLength(s: string): (n: Option<nat>)
    ensures n.Some? ==> 0 < n.value <= |s|
  {
    if !StartsWithIgnoreCase(s, "</p>") then None
    else
      var k := SpaceRun(s, 4);
      if StartsWithIgnoreCase(s[k..], "<p>") then Some(k + 3) else None
  }

  /** Step 2: each paragraph boundary becomes a blank line. */
  function ParagraphBreaks(s: string): string
    decreases |s|
  {
    if s == [] then []
    else
      match ParagraphBreakLength(s)
      case Some(n) => "\n\n" + ParagraphBreaks(s[n..])
      case None => [s[0]] + ParagraphBreaks(s[1..])
  }

  /** Length of a match of `/<br\s*\/?>/i` at the start of `s`. */
  function LineBreakLength(s: string): (n: Option<nat>)
    ensures n.Some? ==> 0 < n.value <= |s|
  {
    if !StartsWithIgnoreCase(s, "<br") then None
    else
      var k := SpaceRun(s, 3);
      if k < |s| && s[k] == '>' then Some(k + 1)
      else if k + 1 < |s| && s[k] == '/' && s[k + 1] == '>' then Some(k + 2)
      else None
  }

  /** Step 3: each line-break tag becomes a newline. */
  function LineBreaks(s: string): string
    decreases |s|
  {
    if s == [] then []
    else
      match LineBreakLength(s)
      case Some(n) => "\n" + LineBreaks(s[n..])
      case None => [s[0]] + LineBreaks(s[1..])
  }

  /** Step 4, `/<[^>]*>/g` removed: a '<' with a '>' after it starts a tag that runs to
      the first such '>'; a '<' with none after it is kept, so in the result no '<' has a
      '>' anywhere after it. */
  function StripTags(s: string): (r: string)
    ensures forall c :: c in r ==> c in s
    ensures forall i, j :: 0 <= i < j < |r| && r[i] == '<' ==> r[j] != '>'
    decreases |s|
  {
    if s == [] then []
    else if s[0] == '<' && StopAt(s, '>', 1) < |s| then
      var r := StripTags(s[StopAt(s, '>', 1) + 1..]);
      assert forall c :: c in s[StopAt(s, '>', 1) + 1..] ==> c in s;
      r
    else
      var rest := StripTags(s[1..]);
      assert forall c :: c in s[1..] ==> c in s;
      var r := [s[0]] + rest;
      assert forall j :: 0 < j < |r| ==> r[j] == rest[j - 1];
      if s[0] == '<' then
        assert '>' !in s[1..] by {
          forall m | 0 <= m < |s[1..]| ensures s[1..][m] != '>' {
            assert s[1..][m] == s[m + 1];
          }
        }
        assert '>' !in rest;
        r
      else r
  }

  const ContinueReading: string := "continue reading..."

  /** Step 6, `/\s*Continue reading\.{3}\s*$/i` removed: when the text, less trailing
      white space, ends with the phrase, the phrase and the white space around it go. */
  function StripTrailingContinueReading(s: string): (r: string)
    ensures |r| <= |s| && r == s[..|r|]
  {
    var t := TrimEnd(s);
    if |t| >= |ContinueReading| && EqualsIgnoreCase(t[|t| - |ContinueReading|..], ContinueReading) then
      var u := TrimEnd(t[..|t| - |ContinueReading|]);
      assert u == s[..|u|];
      u
    else s
  }

  /** No three newlines in a row. */
  predicate NoTripleNewline(s: string)
  {
    forall k :: 0 <= k && k + 2 < |s| ==> !(s[k] == '\n' && s[k + 1] == '\n' && s[k + 2] == '\n')
  }

  /** The length of the run of newlines at the start of `s`. */
  function NewlineRun(s: string): (n: nat)
    ensures n <= |s|
    ensures forall m :: 0 <= m < n ==> s[m] == '\n'
    ensures n < |s| ==> s[n] != '\n'
  {
    if s != [] && s[0] == '\n' then 1 + NewlineRun(s[1..]) else 0
  }

  /** Step 7, `/\n{3,}/g` replaced by a blank line: every run of three or more newlines
      shrinks to two; the result keeps the first character. */
  function CollapseNewlines(s: string): (r: string)
    ensures NoTripleNewline(r)
    ensures s == [] <==> r == []
    ensures s != [] ==> r[0] == s[0]
    decreases |s|
  {
    if s == [] then []
    else if s[0] != '\n' then
      var rest := CollapseNewlines(s[1..]);
      var r := [s[0]] + rest;
      assert forall j :: 0 < j < |r| ==> r[j] == rest[j - 1];
      r
    else
      var n := NewlineRun(s);
      var head := if n >= 3 then "\n\n" else s[..n];
      var rest := CollapseNewlines(s[n..]);
      NoTripleAcross(head, rest);
      head + rest
  }

  /** At most two newlines followed by a text that does not start with one. */
  lemma NoTripleAcross(head: string, rest: string)
    requires |head| <= 2
    requires rest == [] || rest[0] != '\n'
    requires NoTripleNewline(rest)
    ensures NoTripleNewline(head + rest)
  {
    var r := head + rest;
    forall k | 0 <= k && k + 2 < |r|
      ensures !(r[k] == '\n' && r[k + 1] == '\n' && r[k + 2] == '\n')
    {
      if k >= |head| {
        assert r[k] == rest[k - |head|] && r[k + 1] == rest[k + 1 - |head|] && r[k + 2] == rest[k + 2 - |head|];
      } else {
        var m := |head| - k;
        assert r[k + m] == rest[0];
      }
    }
  }

  /** cleanHtml */
  function CleanHtml(text: string): (r: string)
    ensures r == [] || (!IsWhitespace(r[0]) && !IsWhitespace(r[|r| - 1]))
    ensures NoTripleNewline(r)
  {
    var s1 := RemoveContinueLinks(text);
    var s2 := ParagraphBreaks(s1);
    var s3 := LineBreaks(s2);
    var s4 := StripTags(s3);
    var s5 := DecodeHtmlEntities(s4);
    var s6 := StripTrailingContinueReading(s5);
    var s7 := CollapseNewlines(s6);
    TrimShape(s7);
    Trim(s7)
  }

  /** A text that does not start with '<' starts with none of the tag patterns. */
  lemma NotATagStart(s: string, p: string)
    requires s != [] && s[0] != '<' && p != [] && p[0] == '<'
    ensures !StartsWithIgnoreCase(s, p)
  {
    if |p| <= |s| {
      assert s[..|p|][0] == s[0];
    }
  }

  /** The passes before decoding only act at a '<': a text without one goes through
      them unchanged. */
  lemma {:induction false} MarkupPassesKeepPlainText(s: string)
    requires '<' !in s
    ensures RemoveContinueLinks(s) == s && ParagraphBreaks(s) == s
    ensures LineBreaks(s) == s && StripTags(s) == s
    decreases |s|
  {
    if s != [] {
      assert s[0] in s;
      NotATagStart(s, "<a");
      NotATagStart(s, "</p>");
      NotATagStart(s, "<br");
      assert forall c :: c in s[1..] ==> c in s;
      MarkupPassesKeepPlainText(s[1..]);
      assert [s[0]] + s[1..] == s;
    }
  }

  /** Tags are stripped before entities are decoded: for a text without markup the
      clean-up is the decoding followed by the later passes, so an escaped tag comes out
      as literal text and is not stripped. */
  lemma CleanHtmlOfPlainText(text: string)
    requires '<' !in text
    ensures CleanHtml(text)
            == Trim(CollapseNewlines(StripTrailingContinueReading(DecodeHtmlEntities(text))))
  {
    MarkupPassesKeepPlainText(text);
  }

  /** Newlines are only collapsed where there are some. */
  lemma {:induction false} CollapseNewlinesWithoutNewline(s: string)
    requires '\n' !in s
    ensures CollapseNewlines(s) == s
    decreases |s|
  {
    if s != [] {
      assert s[0] in s;
      assert forall c :: c in s[1..] ==> c in s;
      CollapseNewlinesWithoutNewline(s[1..]);
      assert [s[0]] + s[1..] == s;
    }
  }

  /** The first three replacements of a table applied, then the rest. */
  lemma ApplyFirstThree(s: string, table: seq<(string, string)>)
    requires |table| >= 3 && EntityReplacements(table)
    ensures ApplyReplacements(s, table)
            == ApplyReplacements(ReplaceAll(ReplaceAll(ReplaceAll(s, table[0].0, table[0].1),
                                                       table[1].0, table[1].1),
                                            table[2].0, table[2].1),
                                 table[3..])
  {
    var s1 := ReplaceAll(s, table[0].0, table[0].1);
    var s2 := ReplaceAll(s1, table[1].0, table[1].1);
    assert table[1..][0] == table[1] && table[1..][1..][0] == table[2];
    assert table[1..][1..][1..] == table[3..];
    assert ApplyReplacements(s, table) == ApplyReplacements(s1, table[1..]);
    assert ApplyReplacements(s1, table[1..]) == ApplyReplacements(s2, table[1..][1..]);
  }

  /** `&amp;` does not occur in an escaped tag whose name has no '&'. */
  lemma NoAmpInEscapedTag(x: string)
    requires '&' !in x
    ensures ReplaceAll("&lt;" + x + "&gt;", "&amp;", "&") == "&lt;" + x + "&gt;"
  {
    var s := "&lt;" + x + "&gt;";
    assert s[..5][1] != "&amp;"[1];
    assert s[1..] == "lt;" + (x + "&gt;");
    ReplaceAllSkipsPrefix("lt;", x + "&gt;", "&amp;", "&");
    ReplaceAllSkipsPrefix(x, "&gt;", "&amp;", "&");
    assert s == ['&'] + ("lt;" + (x + "&gt;"));
  }

  /** `&lt;` is replaced at the front of an escaped tag and nowhere else. */
  lemma LtInEscapedTag(x: string)
    requires '&' !in x
    ensures ReplaceAll("&lt;" + x + "&gt;", "&lt;", "<") == "<" + x + "&gt;"
  {
    assert "&lt;" + x + "&gt;" == "&lt;" + (x + "&gt;");
    ReplaceAllAtPattern(x + "&gt;", "&lt;", "<");
    ReplaceAllSkipsPrefix(x, "&gt;", "&lt;", "<");
    GtEntityIsNotLt();
  }

  lemma GtEntityIsNotLt()
    ensures ReplaceAll("&gt;", "&lt;", "<") == "&gt;"
  {
    assert "&gt;"[..4][1] != "&lt;"[1] && "&gt;"[1..] == "gt;";
  }

  /** `&gt;` is replaced at the end of an escaped tag. */
  lemma GtInEscapedTag(x: string)
    requires '&' !in x
    ensures ReplaceAll("<" + x + "&gt;", "&gt;", ">") == "<" + x + ">"
  {
    assert '&' !in "<" + x;
    ReplaceAllSkipsPrefix("<" + x, "&gt;", "&gt;", ">");
    ReplaceAllAtPattern([], "&gt;", ">");
    assert "&gt;" + [] == "&gt;";
  }

  /** An escaped tag goes through a table that starts with `&amp;`, `&lt;` and `&gt;` as
      the literal tag. */
  lemma ApplyToEscapedTag(x: string, table: seq<(string, string)>)
    requires '&' !in x && |table| >= 3 && EntityReplacements(table)
    requires table[0] == ("&amp;", "&") && table[1] == ("&lt;", "<") && table[2] == ("&gt;", ">")
    ensures ApplyReplacements("&lt;" + x + "&gt;", table) == "<" + x + ">"
  {
    ApplyFirstThree("&lt;" + x + "&gt;", table);
    NoAmpInEscapedTag(x);
    LtInEscapedTag(x);
    GtInEscapedTag(x);
    assert '&' !in "<" + x + ">";
    ApplyReplacementsWithoutAmpersand("<" + x + ">", table[3..]);
  }

  /** An escaped tag decodes to the literal tag. */
  lemma DecodeEscapedTag(x: string)
    requires '&' !in x
    ensures DecodeHtmlEntities("&lt;" + x + "&gt;") == "<" + x + ">"
  {
    EntityTableShape();
    ApplyToEscapedTag(x, EntityTable);
  }

  /** A text ending in '>' does not end with "Continue reading...". */
  lemma EndsWithTagKept(d: string)
    requires d != [] && d[|d| - 1] == '>'
    ensures StripTrailingContinueReading(d) == d
  {
    assert TrimEnd(d) == d;
    var n := |ContinueReading|;
    if |d| >= n {
      var tail := d[|d| - n..];
      assert tail[n - 1] == '>' && ContinueReading[n - 1] == '.';
      assert LowerAscii(tail[n - 1]) != LowerAscii(ContinueReading[n - 1]);
    }
  }

  /** The passes after decoding leave a tag without newlines as it is. */
  lemma LaterPassesKeepTag(d: string)
    requires |d| >= 2 && d[0] == '<' && d[|d| - 1] == '>' && '\n' !in d
    ensures Trim(CollapseNewlines(StripTrailingContinueReading(d))) == d
  {
    EndsWithTagKept(d);
    CollapseNewlinesWithoutNewline(d);
    assert TrimStart(d) == d;
    assert TrimEnd(d) == d;
  }

  /** A text without markup that decodes to a tag without newlines is cleaned to that tag. */
  lemma CleanHtmlOfDecodedTag(s: string, d: string)
    requires '<' !in s && DecodeHtmlEntities(s) == d
    requires |d| >= 2 && d[0] == '<' && d[|d| - 1] == '>' && '\n' !in d
    ensures CleanHtml(s) == d
  {
    CleanHtmlOfPlainText(s);
    LaterPassesKeepTag(d);
  }

  /** Tags are stripped before entities are decoded, so an escaped tag such as
      `&lt;b&gt;` comes out of the clean-up as the literal text `<b>`. */
  lemma EscapedTagSurvivesCleanup(x: string)
    requires '&' !in x && '<' !in x && '\n' !in x
    ensures CleanHtml("&lt;" + x + "&gt;") == "<" + x + ">"
  {
    EscapedTagShape(x, "&lt;" + x + "&gt;", "<" + x + ">");
    DecodeEscapedTag(x);
    CleanHtmlOfDecodedTag("&lt;" + x + "&gt;", "<" + x + ">");
  }

  /** The escaped tag has no '<'; the literal tag is bracketed and has no newline. */
  lemma EscapedTagShape(x: string, s: string, d: string)
    requires '<' !in x && '\n' !in x
    requires s == "&lt;" + x + "&gt;" && d == "<" + x + ">"
    ensures '<' !in s
    ensures |d| >= 2 && d[0] == '<' && d[|d| - 1] == '>' && '\n' !in d
  {
  }

  /** Trimming a text without a run of three newlines leaves no white space at
      either end and no such run. */
  lemma TrimShape(s: string)
    requires NoTripleNewline(s)
    ensures var r := Trim(s);
            (r == [] || (!IsWhitespace(r[0]) && !IsWhitespace(r[|r| - 1]))) && NoTripleNewline(r)
  {
    SliceKeepsNoTripleNewline(s, TrimOffset(s), TrimOffset(s) + |Trim(s)|);
  }

  lemma SliceKeepsNoTripleNewline(s: string, lo: nat, hi: nat)
    requires lo <= hi <= |s| && NoTripleNewline(s)
    ensures NoTripleNewline(s[lo..hi])
  {
    var t := s[lo..hi];
    forall k | 0 <= k && k + 2 < |t|
      ensures !(t[k] == '\n' && t[k + 1] == '\n' && t[k + 2] == '\n')
    {
      assert t[k] == s[lo + k] && t[k + 1] == s[lo + k + 1] && t[k + 2] == s[lo + k + 2];
    }
  }

  // ---------------------------------------------------------------- descriptions

  const FullContentLimit: nat := 800
  const ShortDescriptionLimit: nat := 150

  /** At most `limit` characters: a longer text is cut to `limit - 3` and "..." added. */
  function CapWithEllipsis(t: string, limit: nat): (r: string)
    requires limit >= 3
    ensures |r| <= limit
    ensures |t| <= limit ==> r == t
    ensures |t| > limit ==> r == t[..limit - 3] + "..."
  {
    if |t| > limit then t[..limit - 3] + "..." else t
  }

  /** extractFullContent: the cleaned content if it is strictly longer than the trimmed,
      decoded snippet, otherwise the snippet, capped at 800 characters. */
  function ExtractFullContent(content: Option<string>, contentSnippet: Option<string>): (r: string)
    ensures |r| <= FullContentLimit
    ensures var c := CleanHtml(OrEmpty(content));
            var sn := Trim(DecodeHtmlEntities(OrEmpty(contentSnippet)));
            var chosen := if |c| > |sn| then c else sn;
            r == CapWithEllipsis(chosen, FullContentLimit)
  {
    var cleanedContent := CleanHtml(OrEmpty(content));
    var cleanedSnippet := Trim(DecodeHtmlEntities(OrEmpty(contentSnippet)));
    var fullText := if |cleanedContent| > |cleanedSnippet| then cleanedContent else cleanedSnippet;
    CapWithEllipsis(fullText, FullContentLimit)
  }

  /** On equal lengths the snippet is kept. */
  lemma FullContentTieKeepsSnippet(content: Option<string>, contentSnippet: Option<string>)
    requires |CleanHtml(OrEmpty(content))| == |Trim(DecodeHtmlEntities(OrEmpty(contentSnippet)))|
    requires |Trim(DecodeHtmlEntities(OrEmpty(contentSnippet)))| <= FullContentLimit
    ensures ExtractFullContent(content, contentSnippet) == Trim(DecodeHtmlEntities(OrEmpty(contentSnippet)))
  {
  }

  /** `full.split('\n\n')[0] || full`: the first paragraph, or the whole text when the
      text starts with a blank line. */
  function FirstParagraph(full: string): (r: string)
    ensures r <= full
    ensures r == full || (!Contains(r, "\n\n") && OccursAt(full, "\n\n", |r|))
    ensures r == [] ==> full == []
  {
    var p := BeforeFirst(full, "\n\n");
    if p == [] then full else p
  }

  /** extractShortDescription */
  function ExtractShortDescription(full: string): (r: string)
    ensures |r| <= ShortDescriptionLimit
    ensures |FirstParagraph(full)| <= ShortDescriptionLimit ==> r == FirstParagraph(full)
    ensures |FirstParagraph(full)| > ShortDescriptionLimit ==>
              var p := FirstParagraph(full);
              var cut := LastIndexOf(p[..ShortDescriptionLimit], ". ");
              (cut > 80 && r == p[..cut + 1]) || (cut <= 80 && r == p[..147] + "...")
  {
    var firstPara := FirstParagraph(full);
    if |firstPara| > ShortDescriptionLimit then
      var sentenceEnd := LastIndexOf(firstPara[..ShortDescriptionLimit], ". ");
      if sentenceEnd > 80 then firstPara[..sentenceEnd + 1]
      else firstPara[..147] + "..."
    else firstPara
  }

  /** A long first paragraph is cut just after the last full stop that is followed by a
      space and starts beyond index 80 within the first 150 characters; failing that it
      is cut to 147 characters and "..." added. */
  lemma ShortDescriptionCutsAtSentence(full: string)
    requires |FirstParagraph(full)| > ShortDescriptionLimit
    ensures var p := FirstParagraph(full);
            var r := ExtractShortDescription(full);
            (82 <= |r| <= ShortDescriptionLimit && r == p[..|r|] && r[|r| - 1] == '.'
              && OccursAt(p, ". ", |r| - 1)
              && forall j :: |r| - 1 < j && j + 2 <= ShortDescriptionLimit ==> !OccursAt(p, ". ", j))
            || (r == p[..147] + "..."
              && forall j :: 80 < j && j + 2 <= ShortDescriptionLimit ==> !OccursAt(p, ". ", j))
  {
    var p := FirstParagraph(full);
    SentenceCut(p);
    var cut := LastIndexOf(p[..ShortDescriptionLimit], ". ");
    if cut > 80 {
      assert p[..cut + 1][cut] == p[cut];
    }
  }

  /** Where the last ". " of the first 150 characters of `p` sits, in terms of `p`. */
  lemma SentenceCut(p: string)
    requires |p| > ShortDescriptionLimit
    ensures var cut := LastIndexOf(p[..ShortDescriptionLimit], ". ");
            && (cut > 80 ==> cut + 2 <= ShortDescriptionLimit && OccursAt(p, ". ", cut) && p[cut] == '.'
                             && forall j :: cut < j && j + 2 <= ShortDescriptionLimit ==> !OccursAt(p, ". ", j))
            && (cut <= 80 ==> forall j :: 80 < j && j + 2 <= ShortDescriptionLimit ==> !OccursAt(p, ". ", j))
  {
    var head := p[..ShortDescriptionLimit];
    var cut := LastIndexOf(head, ". ");
    forall j | 0 <= j && j + 2 <= ShortDescriptionLimit
      ensures OccursAt(p, ". ", j) <==> OccursAt(head, ". ", j)
    {
      assert p[j..j + 2] == head[j..j + 2];
    }
    if cut > 80 {
      assert head[cut..cut + 2] == ". ";
      assert head[cut..cut + 2][0] == head[cut] == p[cut];
    }
  }

  // ---------------------------------------------------------------- parseFeed

  const ItemsPerSource: nat := 10

  /** An item with a truthy title and link. */
  predicate Usable(it: RawItem)
  {
    Truthy(it.title) && Truthy(it.link)
  }

  /** The items that have a truthy title and link, in feed order. */
  function UsableItems(items: seq<RawItem>): (r: seq<RawItem>)
    ensures forall it :: it in r <==> it in items && Truthy(it.title) && Truthy(it.link)
    ensures IsSubsequence(r, items)
    ensures r == Filter(items, Usable)
  {
    if items == [] then []
    else if Truthy(items[0].title) && Truthy(items[0].link) then [items[0]] + UsableItems(items[1..])
    else UsableItems(items[1..])
  }

  /** What the outside world contributes to one item: the clock, the date parser
      (None when `new Date(s)` is invalid) and the MD5 hex digest. */
  datatype Env = Env(now: int, parseDate: string -> Option<int>, md5Hex: string -> string)

  /** The instant of an item: its date when present, the current time when absent; an
      unparseable date makes `toISOString` throw. */
  function PublishedAt(item: RawItem, env: Env): (r: Result<int, string>)
    ensures !Truthy(item.pubDate) ==> r == Ok(env.now)
    ensures Truthy(item.pubDate) ==> (r.Err? <==> env.parseDate(item.pubDate.value).None?)
  {
    if Truthy(item.pubDate) then
      match env.parseDate(item.pubDate.value)
      case Some(t) => Ok(t)
      case None => Err("Invalid time value")
    else Ok(env.now)
  }

  /** The article built from one usable item. */
  function ToArticle(source: FeedSource, item: RawItem, publishedAt: int, env: Env): (a: Article)
    requires Truthy(item.title) && Truthy(item.link)
    ensures a.url == item.link.value && a.title == Trim(item.title.value)
    ensures a.source == ArticleSource(source.id, source.name) && a.category == source.category
    ensures a.publishedAt == publishedAt && a.aiSummary == None
    ensures a.id == CreateArticleId(a.url, source.id, env.md5Hex)
    ensures a.fullDescription == ExtractFullContent(item.content, item.contentSnippet)
    ensures a.description == ExtractShortDescription(a.fullDescription)
    ensures a.imageUrl == FirstTruthy(ImageCandidates(item))
    ensures a.author == if Truthy(item.creator) then item.creator else item.author
  {
    ExtractImageUrlIsFirstCandidate(item);
    var fullDescription := ExtractFullContent(item.content, item.contentSnippet);
    Article(
      CreateArticleId(item.link.value, source.id, env.md5Hex),
      Trim(item.title.value),
      ExtractShortDescription(fullDescription),
      fullDescription,
      item.link.value,
      ExtractImageUrl(item),
      ArticleSource(source.id, source.name),
      source.category,
      publishedAt,
      if Truthy(item.creator) then item.creator else item.author,
      None)
  }

  /** The instants of the items, in order; the first bad date fails the whole list. */
  function ItemDates(items: seq<RawItem>, env: Env): (r: Result<seq<int>, string>)
    ensures r.Err? <==> exists k :: 0 <= k < |items| && PublishedAt(items[k], env).Err?
    ensures r.Ok? ==> |r.value| == |items|
    ensures r.Ok? ==> forall k :: 0 <= k < |items| ==> PublishedAt(items[k], env) == Ok(r.value[k])
  {
    if items == [] then Ok([])
    else
      match PublishedAt(items[0], env)
      case Err(e) => Err(e)
      case Ok(t) =>
        var rest := ItemDates(items[1..], env);
        assert forall k :: 1 <= k < |items| ==> items[k] == items[1..][k - 1];
        if rest.Err? then
          var k :| 0 <= k < |items[1..]| && PublishedAt(items[1..][k], env).Err?;
          assert PublishedAt(items[k + 1], env).Err?;
          rest
        else
          var r := [t] + rest.value;
          assert forall k :: 1 <= k < |items| ==> r[k] == rest.value[k - 1];
          Ok(r)
  }

  /** The items mapped to articles in order, unless one of them has a bad date. */
  function MapItems(source: FeedSource, items: seq<RawItem>, env: Env): (r: Result<seq<Article>, string>)
    requires forall k :: 0 <= k < |items| ==> Truthy(items[k].title) && Truthy(items[k].link)
    ensures r.Err? <==> exists k :: 0 <= k < |items| && PublishedAt(items[k], env).Err?
    ensures r.Ok? ==> |r.value| == |items|
    ensures r.Ok? ==> forall k :: 0 <= k < |items| ==>
              r.value[k] == ToArticle(source, items[k], PublishedAt(items[k], env).value, env)
  {
    match ItemDates(items, env)
    case Err(e) => Err(e)
    case Ok(dates) =>
      Ok(seq(|items|, k requires 0 <= k < |items| => ToArticle(source, items[k], dates[k], env)))
  }

  /** The items parseFeed turns into articles: the first 10 usable ones. */
  function KeptItems(items: seq<RawItem>): (r: seq<RawItem>)
    ensures |r| <= ItemsPerSource
    ensures r <= UsableItems(items)
    ensures |r| == ItemsPerSource || r == UsableItems(items)
    ensures forall k :: 0 <= k < |r| ==> Truthy(r[k].title) && Truthy(r[k].link)
  {
    var usable := UsableItems(items);
    var r := usable[..Min(ItemsPerSource, |usable|)];
    assert forall k :: 0 <= k < |r| ==> r[k] in usable;
    r
  }

  /** parseFeed after the fetch: keep the usable items, at most 10 of them, and map them
      to articles; a fetch failure is passed through as the source's failure. */
  function ParseFeed(source: FeedSource, fetched: Result<seq<RawItem>, string>, env: Env): (r: Result<seq<Article>, string>)
    ensures fetched.Err? ==> r == Err(fetched.error)
    ensures fetched.Ok? ==> (r.Err? <==> exists k :: 0 <= k < |KeptItems(fetched.value)|
                                          && PublishedAt(KeptItems(fetched.value)[k], env).Err?)
    ensures fetched.Ok? && r.Ok? ==> |r.value| == |KeptItems(fetched.value)|
    ensures fetched.Ok? && r.Ok? ==> forall k :: 0 <= k < |r.value| ==>
              var item := KeptItems(fetched.value)[k];
              r.value[k].url == item.link.value
              && r.value[k].title == Trim(item.title.value)
              && r.value[k].source == ArticleSource(source.id, source.name)
              && r.value[k].category == source.category
              && PublishedAt(item, env) == Ok(r.value[k].publishedAt)
    ensures r.Ok? ==> |r.value| <= ItemsPerSource
  {
    match fetched
    case Err(e) => Err(e)
    case Ok(items) => MapItems(source, KeptItems(items), env)
  }
}
