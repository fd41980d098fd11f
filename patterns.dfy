/** The fragment of case-insensitive regular expressions that the hero keyword lists
    use: `\b`, literal text, `\s*` and `\d+`, matched exactly as `RegExp.prototype.test`
    with the `i` flag and no `u` flag does, followed by the three keyword lists. */
module Patterns {
  import opened Types
  import opened JsText

  datatype Token =
    | WordBoundary      // \b
    | Lit(text: string) // literal characters, compared up to ASCII case
    | Spaces            // \s*
    | Digits            // \d+

  type Pattern = seq<Token>

  /** `\b` holds at `i` when exactly one of the characters on either side is a word
      character; the ends of the text count as non-word characters. */
  predicate BoundaryAt(text: string, i: nat)
    requires i <= |text|
  {
    (i > 0 && IsWordChar(text[i - 1])) != (i < |text| && IsWordChar(text[i]))
  }

  /** Some way of matching all of `p` begins at position `i` of `text`. */
  predicate MatchesAt(p: Pattern, text: string, i: nat)
    requires i <= |text|
    decreases |p|, |text| - i
  {
    if p == [] then true
    else match p[0]
      case WordBoundary => BoundaryAt(text, i) && MatchesAt(p[1..], text, i)
      case Lit(w) =>
        i + |w| <= |text| && EqualsIgnoreCase(text[i..i + |w|], w) && MatchesAt(p[1..], text, i + |w|)
      case Spaces =>
        MatchesAt(p[1..], text, i) || (i < |text| && IsWhitespace(text[i]) && MatchesAt(p, text, i + 1))
      case Digits =>
        i < |text| && IsDigit(text[i]) && (MatchesAt(p[1..], text, i + 1) || MatchesAt(p, text, i + 1))
  }

  /** `pattern.test(text)`: a match starts somewhere in the text. */
  predicate Test(p: Pattern, text: string)
  {
    exists i :: 0 <= i <= |text| && MatchesAt(p, text, i)
  }

  /** `\bw\b` */
  function Word(w: string): Pattern
  {
    [WordBoundary, Lit(w), WordBoundary]
  }

  /** BREAKING_SIGNALS */
  const BreakingSignals: seq<Pattern> := [
    Word("breaking"),
    Word("just in"),
    Word("urgent"),
    Word("exclusive"),
    [WordBoundary, Lit("live"), Spaces, Lit(":")],
    Word("developing"),
    [WordBoundary, Lit("breaks"), Spaces, Lit(":")]
  ]

  /** MAJOR_EVENT_KEYWORDS */
  const MajorEventKeywords: seq<Pattern> := [
    Word("dies"), Word("dead"), Word("death"), Word("resigns"), Word("resignation"),
    Word("sacked"), Word("fired"), Word("arrested"), Word("crash"), Word("attack"),
    Word("shooting"), Word("explosion"), Word("earthquake"), Word("flood"), Word("wins"),
    Word("victory"), Word("election"), Word("war"), Word("invasion"), Word("crisis")
  ]

  /** IMPORTANT_TOPICS: plain phrases, without word boundaries, and `cop\d+`. */
  const ImportantTopics: seq<Pattern> := [
    [Lit("prime minister")], [Lit("keir starmer")], [Lit("rishi sunak")],
    [Lit("king charles")], [Lit("royal family")], [Lit("parliament")],
    [Lit("downing street")], [Lit("westminster")], [Lit("cabinet")], [Lit("chancellor")],
    [Lit("home secretary")], [Lit("foreign secretary")], [Lit("nhs")],
    [Lit("bank of england")], [Lit("president biden")], [Lit("president trump")],
    [Lit("donald trump")], [Lit("white house")], [Lit("european union")], [Lit("nato")],
    [Lit("united nations")], [Lit("supreme court")], [Lit("climate summit")],
    [Lit("cop"), Digits]
  ]

  lemma KeywordListSizes()
    ensures |BreakingSignals| == 7 && |MajorEventKeywords| == 20 && |ImportantTopics| == 24
  {
  }

  /** matchCount: how many of the patterns match the text, each counted once. */
  function MatchCount(text: string, patterns: seq<Pattern>): (r: nat)
    ensures r <= |patterns|
    ensures r == 0 <==> forall k :: 0 <= k < |patterns| ==> !Test(patterns[k], text)
    ensures r == |patterns| <==> forall k :: 0 <= k < |patterns| ==> Test(patterns[k], text)
  {
    if patterns == [] then 0
    else
      var rest := MatchCount(text, patterns[1..]);
      assert forall k :: 1 <= k < |patterns| ==> patterns[k] == patterns[1..][k - 1];
      (if Test(patterns[0], text) then 1 else 0) + rest
  }

  /** Counting distributes over a split of the pattern list. */
  lemma {:induction false} MatchCountAppend(text: string, ps: seq<Pattern>, qs: seq<Pattern>)
    ensures MatchCount(text, ps + qs) == MatchCount(text, ps) + MatchCount(text, qs)
    decreases |ps|
  {
    if ps != [] {
      assert (ps + qs)[0] == ps[0] && (ps + qs)[1..] == ps[1..] + qs;
      MatchCountAppend(text, ps[1..], qs);
    } else {
      assert ps + qs == qs;
    }
  }

  /** A pattern that is one lower-case literal is a search for that literal in the
      text folded to lower case. */
  lemma LiteralPatternIsSubstringSearch(w: string, text: string)
    requires ToLowerAscii(w) == w
    ensures Test([Lit(w)], text) <==> Contains(ToLowerAscii(text), w)
  {
    var lower := ToLowerAscii(text);
    forall i | 0 <= i <= |text|
      ensures MatchesAt([Lit(w)], text, i) <==> OccursAt(lower, w, i)
    {
      assert [Lit(w)][1..] == [];
      if i + |w| <= |text| {
        assert EqualsIgnoreCase(text[i..i + |w|], w) <==> lower[i..i + |w|] == w by {
          if EqualsIgnoreCase(text[i..i + |w|], w) {
            assert forall k :: 0 <= k < |w| ==> lower[i..i + |w|][k] == LowerAscii(w[k]) == w[k];
          }
          if lower[i..i + |w|] == w {
            assert forall k :: 0 <= k < |w| ==> LowerAscii(text[i..i + |w|][k]) == lower[i + k] == w[k] == LowerAscii(w[k]);
          }
        }
      }
    }
    if Test([Lit(w)], text) {
      var i :| 0 <= i <= |text| && MatchesAt([Lit(w)], text, i);
      assert OccursAt(lower, w, i);
    }
    if Contains(lower, w) {
      var i :| 0 <= i <= |lower| && OccursAt(lower, w, i);
      assert MatchesAt([Lit(w)], text, i);
    }
  }

  /** The text contains `w`, up to case, with no word character immediately before or
      after it. */
  predicate WholeWordAt(text: string, w: string, i: nat)
  {
    i + |w| <= |text| && EqualsIgnoreCase(text[i..i + |w|], w)
    && (i == 0 || !IsWordChar(text[i - 1]))
    && (i + |w| == |text| || !IsWordChar(text[i + |w|]))
  }

  /** `\bw\b`, for a word that begins and ends with word characters, finds exactly the
      whole-word occurrences of `w`. */
  lemma WordPatternIsWholeWordSearch(w: string, text: string)
    requires |w| > 0 && IsWordChar(w[0]) && IsWordChar(w[|w| - 1])
    ensures Test(Word(w), text) <==> exists i :: 0 <= i <= |text| && WholeWordAt(text, w, i)
  {
    forall i | 0 <= i <= |text|
      ensures MatchesAt(Word(w), text, i) <==> WholeWordAt(text, w, i)
    {
      var p := Word(w);
      assert p[0] == WordBoundary && p[1..] == [Lit(w), WordBoundary];
      assert [Lit(w), WordBoundary][1..] == [WordBoundary] && [WordBoundary][1..] == [];
      assert MatchesAt(p, text, i) == (BoundaryAt(text, i) && MatchesAt([Lit(w), WordBoundary], text, i));
      if i + |w| <= |text| && EqualsIgnoreCase(text[i..i + |w|], w) {
        var j := i + |w|;
        assert MatchesAt([Lit(w), WordBoundary], text, i) == MatchesAt([WordBoundary], text, j);
        assert MatchesAt([WordBoundary], text, j) == BoundaryAt(text, j);
        assert text[i..j][0] == text[i];
        assert text[i..j][|w| - 1] == text[j - 1];
        WordCharIgnoresCase(text[i], w[0]);
        WordCharIgnoresCase(text[j - 1], w[|w| - 1]);
      } else {
        assert !MatchesAt([Lit(w), WordBoundary], text, i);
      }
    }
  }

  lemma WordCharIgnoresCase(c: char, d: char)
    requires LowerAscii(c) == LowerAscii(d)
    ensures IsWordChar(c) <==> IsWordChar(d)
  {
  }
}
