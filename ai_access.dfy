/** Who may use the AI features: an allow-list of e-mail addresses read from a
    comma-separated environment variable, each entry trimmed and lower-cased, empty
    entries dropped. The server and the client each read their own variable; the
    variables are parameters, None standing for an unset variable. Lower-casing is
    modelled for ASCII letters only. */
module AiAccess {
  import opened Types
  import opened SeqUtil
  import opened JsText

  /** One entry as the list keeps it. */
  function Normalize(entry: string): string
  {
    ToLowerAscii(Trim(entry))
  }

  function NonEmpty(s: string): bool
  {
    |s| > 0
  }

  /** The comma-separated pieces of a variable, normalized, empty ones kept. */
  function NormalizedPieces(value: string): (r: seq<string>)
    ensures |r| == |Split(value, ',')|
    ensures forall i :: 0 <= i < |r| ==> r[i] == Normalize(Split(value, ',')[i])
  {
    var pieces := Split(value, ',');
    seq(|pieces|, i requires 0 <= i < |pieces| => Normalize(pieces[i]))
  }

  /** getAllowedEmails over a given variable. */
  function AllowList(variable: Option<string>): (r: seq<string>)
    ensures variable.None? || variable.value == "" ==> r == []
  {
    if variable.None? || variable.value == "" then []
    else Filter(NormalizedPieces(variable.value), NonEmpty)
  }

  /** isAIAllowed, with the server's variable. The check for an empty list is
      redundant: access is membership of the lower-cased e-mail, so matching ignores
      the case of ASCII letters. */
  predicate IsAIAllowed(email: Option<string>, serverVariable: Option<string>)
    ensures IsAIAllowed(email, serverVariable)
            <==> email.Some? && email.value != "" && ToLowerAscii(email.value) in AllowList(serverVariable)
  {
    if email.None? || email.value == "" then false
    else
      var allowed := AllowList(serverVariable);
      if |allowed| == 0 then false
      else ToLowerAscii(email.value) in allowed
  }

  /** isAIAllowedClient, with the client's variable. It is written without the
      helper, but decides as the server check does when both read the same list. */
  predicate IsAIAllowedClient(email: Option<string>, clientVariable: Option<string>)
    ensures IsAIAllowedClient(email, clientVariable) <==> IsAIAllowed(email, clientVariable)
  {
    if email.None? || email.value == "" then false
    else if clientVariable.None? || clientVariable.value == "" then false
    else ToLowerAscii(email.value) in Filter(NormalizedPieces(clientVariable.value), NonEmpty)
  }

  // ---------------------------------------------------------------- properties

  /** Lower-casing keeps white space white space and everything else not. */
  lemma LowerKeepsWhitespaceClass(c: char)
    ensures IsWhitespace(LowerAscii(c)) <==> IsWhitespace(c)
  {
  }

  /** Lower-casing twice is lower-casing once. */
  lemma LowerIsIdempotent(s: string)
    ensures ToLowerAscii(ToLowerAscii(s)) == ToLowerAscii(s)
  {
  }

  /** Normalizing a piece without a comma gives a string without a comma. */
  lemma NormalizedHasNoComma(piece: string)
    requires ',' !in piece
    ensures ',' !in Normalize(piece)
  {
    var t := Trim(piece);
    var e := Normalize(piece);
    forall k | 0 <= k < |e|
      ensures e[k] != ','
    {
      assert e[k] == LowerAscii(t[k]);
      assert t[k] == piece[TrimOffset(piece) + k];
    }
  }

  /** A non-empty normalized piece has no white space at either end. */
  lemma NormalizedEnds(piece: string)
    requires Normalize(piece) != ""
    ensures var e := Normalize(piece);
            !IsWhitespace(e[0]) && !IsWhitespace(e[|e| - 1])
  {
    var t := Trim(piece);
    assert t != [] && !IsWhitespace(t[0]) && !IsWhitespace(t[|t| - 1]);
    LowerKeepsEnds(t);
  }

  /** Lower-casing keeps white space off both ends. */
  lemma LowerKeepsEnds(t: string)
    requires t != [] && !IsWhitespace(t[0]) && !IsWhitespace(t[|t| - 1])
    ensures var e := ToLowerAscii(t);
            !IsWhitespace(e[0]) && !IsWhitespace(e[|e| - 1])
  {
    LowerKeepsWhitespaceClass(t[0]);
    LowerKeepsWhitespaceClass(t[|t| - 1]);
  }

  /** Lower-casing keeps white space at either end. */
  lemma LowerKeepsUntrimmed(t: string)
    requires t != [] && (IsWhitespace(t[0]) || IsWhitespace(t[|t| - 1]))
    ensures var e := ToLowerAscii(t);
            e != [] && (IsWhitespace(e[0]) || IsWhitespace(e[|e| - 1]))
  {
    LowerKeepsWhitespaceClass(t[0]);
    LowerKeepsWhitespaceClass(t[|t| - 1]);
  }

  /** The shape of an entry of the list: non-empty, no comma, lower-case, and no white
      space at either end. */
  predicate WellFormedEntry(e: string)
  {
    e != [] && ',' !in e && ToLowerAscii(e) == e && !IsWhitespace(e[0]) && !IsWhitespace(e[|e| - 1])
  }

  /** A non-empty normalized piece without a comma is a well-formed entry. */
  lemma NormalizedShape(piece: string)
    requires ',' !in piece && Normalize(piece) != ""
    ensures WellFormedEntry(Normalize(piece))
  {
    NormalizedHasNoComma(piece);
    NormalizedEnds(piece);
    LowerIsIdempotent(Trim(piece));
  }

  /** Every entry of the list is non-empty, has no comma, is lower-case and has no
      white space at either end. */
  lemma AllowListShape(variable: Option<string>)
    ensures forall i :: 0 <= i < |AllowList(variable)| ==> WellFormedEntry(AllowList(variable)[i])
  {
    if variable.Some? && variable.value != "" {
      var pieces := Split(variable.value, ',');
      var normalized := NormalizedPieces(variable.value);
      var r := AllowList(variable);
      AllowListSources(variable.value);
      forall i | 0 <= i < |r|
        ensures WellFormedEntry(r[i])
      {
        var n :| 0 <= n < |normalized| && r[i] == normalized[n];
        NormalizedShape(pieces[n]);
      }
    }
  }

  /** Every entry is a non-empty normalized piece. */
  lemma AllowListSources(value: string)
    requires value != ""
    ensures forall i :: 0 <= i < |AllowList(Some(value))| ==>
              AllowList(Some(value))[i] != [] &&
              exists n :: 0 <= n < |NormalizedPieces(value)| && AllowList(Some(value))[i] == NormalizedPieces(value)[n]
  {
    var normalized := NormalizedPieces(value);
    var r := Filter(normalized, NonEmpty);
    FilterMembers(normalized, NonEmpty);
    forall i | 0 <= i < |r|
      ensures r[i] != []
    {
      assert NonEmpty(r[i]);
    }
  }

  /** Every non-empty normalized piece is on the list. */
  lemma AllowListIsComplete(value: string, n: nat)
    requires value != ""
    requires n < |Split(value, ',')| && Normalize(Split(value, ',')[n]) != ""
    ensures Normalize(Split(value, ',')[n]) in AllowList(Some(value))
  {
    var normalized := NormalizedPieces(value);
    FilterMembers(normalized, NonEmpty);
    assert NonEmpty(normalized[n]);
  }

  /** No e-mail, an empty e-mail, an unset variable or an empty list denies. */
  lemma DeniedWithoutEmailOrList(email: Option<string>, variable: Option<string>)
    requires email.None? || email.value == "" || variable.None? || AllowList(variable) == []
    ensures !IsAIAllowed(email, variable)
    ensures !IsAIAllowedClient(email, variable)
  {
  }

  /** The e-mail itself is not trimmed: one that starts or ends with white space never
      matches, since no entry does. */
  lemma UntrimmedEmailIsDenied(email: string, variable: Option<string>)
    requires email != ""
    requires IsWhitespace(email[0]) || IsWhitespace(email[|email| - 1])
    ensures !IsAIAllowed(Some(email), variable)
  {
    AllowListShape(variable);
    var lower := ToLowerAscii(email);
    LowerKeepsUntrimmed(email);
    var allowed := AllowList(variable);
    forall i | 0 <= i < |allowed|
      ensures allowed[i] != lower
    {
      assert WellFormedEntry(allowed[i]);
    }
  }

  /** A variable with a single address allows exactly that address, in any ASCII case. */
  lemma SingleAddress(value: string, email: string)
    requires ',' !in value && Normalize(value) != ""
    requires email != ""
    ensures AllowList(Some(value)) == [Normalize(value)]
    ensures IsAIAllowed(Some(email), Some(value)) <==> ToLowerAscii(email) == Normalize(value)
  {
    SplitWithoutSeparator(value, ',');
    assert NormalizedPieces(value) == [Normalize(value)];
    assert [Normalize(value)][1..] == [];
  }
}
