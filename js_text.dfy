/** The JavaScript string operations the pipeline relies on, over strings of Unicode
    scalar values: the white-space class shared by `\s` and `trim`, ASCII case folding
    (what the `i` flag of a non-Unicode regular expression does), `indexOf`,
    `lastIndexOf`, `split`, literal global `replace`, `parseInt(_, 10)` and the
    end-index clamping of `slice(0, end)`. */
module JsText {
  import opened Types

  /** The white space of ECMAScript (WhiteSpace and LineTerminator), matched by `\s`
      and removed by `trim`. */
  predicate IsWhitespace(c: char)
  {
    c == ' ' || c == '\t' || c == '\n' || c == '\r' || c == '\U{000B}' || c == '\U{000C}'
    || c == '\U{00A0}' || c == '\U{1680}' || ('\U{2000}' <= c <= '\U{200A}')
    || c == '\U{2028}' || c == '\U{2029}' || c == '\U{202F}' || c == '\U{205F}'
    || c == '\U{3000}' || c == '\U{FEFF}'
  }

  predicate IsDigit(c: char)
  {
    '0' <= c <= '9'
  }

  /** The characters of `\w`, between which `\b` does not hold. */
  predicate IsWordChar(c: char)
  {
    ('a' <= c <= 'z') || ('A' <= c <= 'Z') || IsDigit(c) || c == '_'
  }

  function LowerAscii(c: char): (r: char)
    ensures 'A' <= c <= 'Z' ==> r as int == c as int + 32
    ensures !('A' <= c <= 'Z') ==> r == c
    ensures !('A' <= r <= 'Z')
  {
    if 'A' <= c <= 'Z' then (c as int + 32) as char else c
  }

  function ToLowerAscii(s: string): (r: string)
    ensures |r| == |s|
    ensures forall i :: 0 <= i < |s| ==> r[i] == LowerAscii(s[i])
  {
    seq(|s|, i requires 0 <= i < |s| => LowerAscii(s[i]))
  }

  /** Equality up to the case of ASCII letters. */
  predicate EqualsIgnoreCase(a: string, b: string)
  {
    |a| == |b| && forall i :: 0 <= i < |a| ==> LowerAscii(a[i]) == LowerAscii(b[i])
  }

  predicate OccursAt(s: string, sub: string, i: int)
  {
    0 <= i && i + |sub| <= |s| && s[i..i + |sub|] == sub
  }

  predicate Contains(s: string, sub: string)
  {
    exists i :: 0 <= i <= |s| && OccursAt(s, sub, i)
  }

  /** `s.indexOf(sub, from)`: the first occurrence at or after `from`, or -1. */
  function IndexOfFrom(s: string, sub: string, from: nat): (r: int)
    ensures r == -1 || (from <= r && OccursAt(s, sub, r))
    ensures r == -1 ==> forall j :: from <= j ==> !OccursAt(s, sub, j)
    ensures r >= 0 ==> forall j :: from <= j < r ==> !OccursAt(s, sub, j)
    decreases |s| - from
  {
    if from + |sub| > |s| then -1
    else if OccursAt(s, sub, from) then from
    else IndexOfFrom(s, sub, from + 1)
  }

  function IndexOf(s: string, sub: string): (r: int)
    ensures r == -1 <==> !Contains(s, sub)
    ensures r >= 0 ==> OccursAt(s, sub, r) && forall j :: 0 <= j < r ==> !OccursAt(s, sub, j)
  {
    IndexOfFrom(s, sub, 0)
  }

  /** The last occurrence of `sub` starting at or before `upto`, or -1. */
  function LastIndexOfUpTo(s: string, sub: string, upto: int): (r: int)
    ensures r == -1 || (0 <= r <= upto && OccursAt(s, sub, r))
    ensures r == -1 ==> forall j :: 0 <= j <= upto ==> !OccursAt(s, sub, j)
    ensures forall j :: r < j <= upto ==> !OccursAt(s, sub, j)
    decreases upto + 1
  {
    if upto < 0 then -1
    else if OccursAt(s, sub, upto) then upto
    else LastIndexOfUpTo(s, sub, upto - 1)
  }

  /** `s.lastIndexOf(sub)`. */
  function LastIndexOf(s: string, sub: string): (r: int)
    ensures r == -1 <==> !Contains(s, sub)
    ensures r >= 0 ==> OccursAt(s, sub, r) && forall j :: r < j ==> !OccursAt(s, sub, j)
  {
    LastIndexOfUpTo(s, sub, |s|)
  }

  function TrimStart(s: string): (r: string)
    ensures |r| <= |s| && r == s[|s| - |r|..]
    ensures forall i :: 0 <= i < |s| - |r| ==> IsWhitespace(s[i])
    ensures r == [] || !IsWhitespace(r[0])
  {
    if s != [] && IsWhitespace(s[0]) then
      var r := TrimStart(s[1..]);
      assert s[|s| - |r|..] == s[1..][|s| - 1 - |r|..];
      assert forall i :: 1 <= i < |s| - |r| ==> s[i] == s[1..][i - 1];
      r
    else s
  }

  function TrimEnd(s: string): (r: string)
    ensures |r| <= |s| && r == s[..|r|]
    ensures forall i :: |r| <= i < |s| ==> IsWhitespace(s[i])
    ensures r == [] || !IsWhitespace(r[|r| - 1])
  {
    if s != [] && IsWhitespace(s[|s| - 1]) then
      var r := TrimEnd(s[..|s| - 1]);
      assert s[..|r|] == s[..|s| - 1][..|r|];
      assert forall i :: |r| <= i < |s| - 1 ==> s[i] == s[..|s| - 1][i];
      r
    else s
  }

  /** How many white-space characters `trim` drops at the start of `s`. */
  function TrimOffset(s: string): (k: nat)
    ensures k <= |s|
  {
    |s| - |TrimStart(s)|
  }

  /** `s.trim()`: the slice of `s` left after dropping white space at both ends. */
  function Trim(s: string): (r: string)
    ensures r == [] || (!IsWhitespace(r[0]) && !IsWhitespace(r[|r| - 1]))
    ensures TrimOffset(s) + |r| <= |s| && r == s[TrimOffset(s)..TrimOffset(s) + |r|]
    ensures forall i :: 0 <= i < TrimOffset(s) ==> IsWhitespace(s[i])
    ensures forall i :: TrimOffset(s) + |r| <= i < |s| ==> IsWhitespace(s[i])
  {
    var t := TrimStart(s);
    var r := TrimEnd(t);
    TrimSlice(s, t, r);
    TrimTail(s, t, r);
    r
  }

  lemma TrimSlice(s: string, t: string, r: string)
    requires |t| <= |s| && t == s[|s| - |t|..]
    requires |r| <= |t| && r == t[..|r|]
    ensures r == s[|s| - |t|..|s| - |t| + |r|]
  {
  }

  lemma TrimTail(s: string, t: string, r: string)
    requires |t| <= |s| && t == s[|s| - |t|..]
    requires |r| <= |t| && forall i :: |r| <= i < |t| ==> IsWhitespace(t[i])
    ensures forall i :: |s| - |t| + |r| <= i < |s| ==> IsWhitespace(s[i])
  {
    var k := |s| - |t|;
    assert t == s[k..];
    forall i | k + |r| <= i < |s| ensures IsWhitespace(s[i]) {
      assert s[i] == t[i - k];
    }
  }

  /** `s.replace(/pat/g, rep)` for a literal pattern: leftmost, non-overlapping. */
  function ReplaceAll(s: string, pat: string, rep: string): (r: string)
    requires pat != []
    decreases |s|
  {
    if |s| < |pat| then s
    else if s[..|pat|] == pat then rep + ReplaceAll(s[|pat|..], pat, rep)
    else [s[0]] + ReplaceAll(s[1..], pat, rep)
  }

  /** A text in which the pattern never occurs is left as it is. */
  lemma {:induction false} ReplaceAllWithoutPattern(s: string, pat: string, rep: string)
    requires pat != [] && !Contains(s, pat)
    ensures ReplaceAll(s, pat, rep) == s
    decreases |s|
  {
    if |s| >= |pat| {
      assert !OccursAt(s, pat, 0);
      assert !Contains(s[1..], pat) by {
        forall i | 0 <= i <= |s[1..]| && OccursAt(s[1..], pat, i)
          ensures false
        {
          assert s[1..][i..i + |pat|] == s[i + 1..i + 1 + |pat|];
          assert OccursAt(s, pat, i + 1);
        }
      }
      ReplaceAllWithoutPattern(s[1..], pat, rep);
      assert [s[0]] + s[1..] == s;
    }
  }

  /** A text without the pattern's first character is left as it is. */
  lemma {:induction false} ReplaceAllWithoutFirstChar(s: string, pat: string, rep: string)
    requires pat != [] && pat[0] !in s
    ensures ReplaceAll(s, pat, rep) == s
    decreases |s|
  {
    if |s| < |pat| {
    } else {
      assert s[..|pat|][0] == s[0];
      assert s[..|pat|] != pat;
      assert s[0] in s;
      assert forall c :: c in s[1..] ==> c in s;
      ReplaceAllWithoutFirstChar(s[1..], pat, rep);
      assert [s[0]] + s[1..] == s;
    }
  }

  /** A prefix without the pattern's first character is copied, and replacing goes on
      after it. */
  lemma {:induction false} ReplaceAllSkipsPrefix(x: string, t: string, pat: string, rep: string)
    requires pat != [] && pat[0] !in x
    ensures ReplaceAll(x + t, pat, rep) == x + ReplaceAll(t, pat, rep)
    decreases |x|
  {
    var s := x + t;
    if x == [] {
      assert s == t;
    } else if |s| < |pat| {
      assert ReplaceAll(t, pat, rep) == t;
    } else {
      assert s[0] == x[0] && x[0] in x;
      assert s[..|pat|][0] != pat[0];
      assert ReplaceAll(s, pat, rep) == [x[0]] + ReplaceAll(s[1..], pat, rep);
      assert s[1..] == x[1..] + t;
      assert pat[0] !in x[1..] by {
        assert x == [x[0]] + x[1..];
      }
      ReplaceAllSkipsPrefix(x[1..], t, pat, rep);
      assert [x[0]] + x[1..] == x;
    }
  }

  /** A text that starts with the pattern has it replaced, and replacing goes on after it. */
  lemma ReplaceAllAtPattern(t: string, pat: string, rep: string)
    requires pat != []
    ensures ReplaceAll(pat + t, pat, rep) == rep + ReplaceAll(t, pat, rep)
  {
    assert (pat + t)[..|pat|] == pat && (pat + t)[|pat|..] == t;
  }

  /** A character found neither in the text nor in the replacement is not in the result. */
  lemma {:induction false} ReplaceAllKeepsOut(s: string, pat: string, rep: string, c: char)
    requires pat != [] && c !in s && c !in rep
    ensures c !in ReplaceAll(s, pat, rep)
    decreases |s|
  {
    if |s| < |pat| {
    } else if s[..|pat|] == pat {
      assert forall d :: d in s[|pat|..] ==> d in s;
      ReplaceAllKeepsOut(s[|pat|..], pat, rep, c);
    } else {
      assert forall d :: d in s[1..] ==> d in s;
      ReplaceAllKeepsOut(s[1..], pat, rep, c);
    }
  }

  /** Replacing by something no longer than the pattern never lengthens the text. */
  lemma {:induction false} ReplaceAllShortens(s: string, pat: string, rep: string)
    requires pat != [] && |rep| <= |pat|
    ensures |ReplaceAll(s, pat, rep)| <= |s|
    decreases |s|
  {
    if |s| < |pat| {
    } else if s[..|pat|] == pat {
      ReplaceAllShortens(s[|pat|..], pat, rep);
    } else {
      ReplaceAllShortens(s[1..], pat, rep);
    }
  }

  function Join(parts: seq<string>, sep: char): string
    requires |parts| >= 1
  {
    if |parts| == 1 then parts[0] else parts[0] + [sep] + Join(parts[1..], sep)
  }

  /** `s.split(sep)` for a one-character separator: the pieces between separators,
      empty pieces included, which joined back with the separator give `s`. */
  function Split(s: string, sep: char): (parts: seq<string>)
    ensures |parts| >= 1
    ensures forall i :: 0 <= i < |parts| ==> sep !in parts[i]
    ensures Join(parts, sep) == s
    decreases |s|
  {
    var i := IndexOf(s, [sep]);
    if i < 0 then
      NoSeparator(s, sep);
      [s]
    else
      var rest := Split(s[i + 1..], sep);
      FirstSeparator(s, sep, i);
      JoinCons(s[..i], rest, sep);
      [s[..i]] + rest
  }

  /** Without an occurrence of the separator, the text does not hold it. */
  lemma NoSeparator(s: string, sep: char)
    requires IndexOf(s, [sep]) < 0
    ensures sep !in s
  {
    OccursAtChar(s, sep);
  }

  /** Around the first separator at `i`, `s` is the separator-free text before it, the
      separator, and the text after it. */
  lemma FirstSeparator(s: string, sep: char, i: int)
    requires i == IndexOf(s, [sep]) && i >= 0
    ensures sep !in s[..i]
    ensures s == s[..i] + [sep] + s[i + 1..]
  {
    OccursAtChar(s, sep);
    forall j | 0 <= j < i
      ensures s[..i][j] != sep
    {
      assert s[..i][j] == s[j];
    }
    assert s[i] == sep by { assert s[i..i + 1] == [sep]; }
  }

  /** Joining a piece in front of more pieces puts the separator between them, and
      the pieces stay free of it when each one is. */
  lemma JoinCons(head: string, rest: seq<string>, sep: char)
    requires |rest| >= 1
    requires sep !in head && forall k :: 0 <= k < |rest| ==> sep !in rest[k]
    ensures Join([head] + rest, sep) == head + [sep] + Join(rest, sep)
    ensures forall k :: 0 <= k < |[head] + rest| ==> sep !in ([head] + rest)[k]
  {
    var parts := [head] + rest;
    assert parts[1..] == rest;
    forall k | 0 <= k < |parts|
      ensures sep !in parts[k]
    {
      if k > 0 {
        assert parts[k] == rest[k - 1];
      }
    }
  }

  /** A one-character string occurs exactly where that character stands. */
  lemma OccursAtChar(s: string, c: char)
    ensures forall j :: 0 <= j < |s| ==> (OccursAt(s, [c], j) <==> s[j] == c)
    ensures c in s <==> Contains(s, [c])
  {
    forall j | 0 <= j < |s|
      ensures OccursAt(s, [c], j) <==> s[j] == c
    {
      assert s[j..j + 1] == [s[j]];
    }
  }

  /** A string without the separator splits into itself alone. */
  lemma SplitWithoutSeparator(s: string, sep: char)
    requires sep !in s
    ensures Split(s, sep) == [s]
  {
    forall j | 0 <= j && j + 1 <= |s|
      ensures !OccursAt(s, [sep], j)
    {
      assert s[j..j + 1][0] == s[j];
    }
  }

  /** `s.split(sep)[0]` for a separator string: the text before its first occurrence. */
  function BeforeFirst(s: string, sep: string): (r: string)
    requires sep != []
    ensures |r| <= |s| && r == s[..|r|]
    ensures !Contains(r, sep)
    ensures Contains(s, sep) ==> OccursAt(s, sep, |r|)
    ensures !Contains(s, sep) ==> r == s
  {
    var i := IndexOf(s, sep);
    if i < 0 then s
    else
      assert !Contains(s[..i], sep) by {
        forall j | 0 <= j <= i ensures !OccursAt(s[..i], sep, j) {
          if OccursAt(s[..i], sep, j) {
            assert s[..i][j..j + |sep|] == s[j..j + |sep|];
            assert OccursAt(s, sep, j);
          }
        }
      }
      s[..i]
  }

  function DigitValue(c: char): nat
    requires IsDigit(c)
  {
    c as int - '0' as int
  }

  /** The decimal value of a run of digits. */
  function DigitsValue(ds: string): nat
    requires forall i :: 0 <= i < |ds| ==> IsDigit(ds[i])
    decreases |ds|
  {
    if ds == [] then 0 else DigitsValue(ds[..|ds| - 1]) * 10 + DigitValue(ds[|ds| - 1])
  }

  /** The longest prefix made of decimal digits. */
  function LeadingDigits(s: string): (r: string)
    ensures |r| <= |s| && r == s[..|r|]
    ensures forall i :: 0 <= i < |r| ==> IsDigit(r[i])
    ensures |r| < |s| ==> !IsDigit(s[|r|])
  {
    if s != [] && IsDigit(s[0]) then [s[0]] + LeadingDigits(s[1..]) else []
  }

  /** `parseInt(s, 10)`: None stands for NaN. Leading white space and one sign are
      skipped; the longest run of digits after them is read; a sign applied to zero
      gives 0, which behaves as -0 does wherever this model uses the number. */
  function ParseInt(s: string): Option<int>
  {
    ParseSigned(TrimStart(s))
  }

  /** The part of `parseInt` after the white space: an optional sign, then digits. */
  function ParseSigned(t: string): Option<int>
  {
    var negative := t != [] && t[0] == '-';
    var body := if t != [] && (t[0] == '-' || t[0] == '+') then t[1..] else t;
    var ds := LeadingDigits(body);
    if ds == [] then None
    else
      var v: int := DigitsValue(ds);
      Some(if negative then -v else v)
  }

  /** The decimal digit for a value below ten. */
  function DigitChar(d: nat): (c: char)
    requires d < 10
    ensures IsDigit(c) && DigitValue(c) == d
  {
    ('0' as int + d) as char
  }

  /** The decimal spelling of a natural number, without leading zeros. */
  function DecimalString(n: nat): (r: string)
    ensures r != [] && forall i :: 0 <= i < |r| ==> IsDigit(r[i])
    decreases n
  {
    if n < 10 then [DigitChar(n)] else DecimalString(n / 10) + [DigitChar(n % 10)]
  }

  /** Reading back a decimal spelling gives the number spelled. */
  lemma {:induction false} DigitsValueOfDecimal(n: nat)
    ensures DigitsValue(DecimalString(n)) == n
    decreases n
  {
    var ds := DecimalString(n);
    if n >= 10 {
      DigitsValueOfDecimal(n / 10);
      assert ds[..|ds| - 1] == DecimalString(n / 10);
    }
  }

  /** A run made only of digits is read whole. */
  lemma AllDigitsAreLeading(ds: string)
    requires forall i :: 0 <= i < |ds| ==> IsDigit(ds[i])
    ensures LeadingDigits(ds) == ds
  {
  }

  /** A run made only of digits is read whole... */
  lemma ParseSignedDigits(ds: string)
    requires ds != [] && forall i :: 0 <= i < |ds| ==> IsDigit(ds[i])
    ensures ParseSigned(ds) == Some(DigitsValue(ds) as int)
  {
    assert IsDigit(ds[0]);
    UnsignedIsReadWhole(ds, LeadingDigits(ds));
  }

  /** Text that starts with neither sign is read from its leading digits. */
  lemma UnsignedIsReadWhole(t: string, ds: string)
    requires t != [] && t[0] != '-' && t[0] != '+'
    requires ds == LeadingDigits(t) && ds == t
    ensures ParseSigned(t) == Some(DigitsValue(ds) as int)
  {
  }

  /** A minus sign and then digits worth `v` are read as `-v`. */
  lemma ParseSignedAfterMinus(t: string, ds: string, v: int)
    requires ds != [] && forall i :: 0 <= i < |ds| ==> IsDigit(ds[i])
    requires t != [] && t[0] == '-' && t[1..] == ds
    requires DigitsValue(ds) == v
    ensures ParseSigned(t) == Some(-v)
  {
    AllDigitsAreLeading(ds);
  }

  /** `parseInt` reads a run of digits whole. */
  lemma ParseIntOfDigits(ds: string)
    requires ds != [] && forall i :: 0 <= i < |ds| ==> IsDigit(ds[i])
    ensures ParseInt(ds) == Some(DigitsValue(ds) as int)
  {
    TrimStartKeeps(ds);
    ParseSignedDigits(ds);
  }

  /** A minus sign put in front of a text is its first character, the text the rest. */
  lemma MinusThen(ds: string)
    ensures ("-" + ds)[0] == '-' && ("-" + ds)[1..] == ds
  {
  }

  /** `parseInt` of a minus sign and then digits worth `v` is `-v`. */
  lemma ParseIntAfterMinus(t: string, ds: string, v: int)
    requires ds != [] && forall i :: 0 <= i < |ds| ==> IsDigit(ds[i])
    requires t != [] && t[0] == '-' && t[1..] == ds
    requires DigitsValue(ds) == v
    ensures ParseInt(t) == Some(-v)
  {
    ParseSignedAfterMinus(t, ds, v);
    ParseIntOfSigned(t);
  }

  /** Text that does not start with white space is read by ParseSigned as it is. */
  lemma ParseIntOfSigned(t: string)
    requires t != [] && !IsWhitespace(t[0])
    ensures ParseInt(t) == ParseSigned(t)
  {
    TrimStartKeeps(t);
  }

  /** Text that does not start with white space is left as it is by TrimStart. */
  lemma TrimStartKeeps(t: string)
    requires t != [] && !IsWhitespace(t[0])
    ensures TrimStart(t) == t
  {
  }

  /** `parseInt` reads back what a number prints as. */
  lemma ParseIntOfDecimal(n: nat)
    ensures ParseInt(DecimalString(n)) == Some(n as int)
  {
    DigitsValueOfDecimal(n);
    ParseIntOfDigits(DecimalString(n));
  }

  /** ... and its negation after a minus sign. */
  lemma ParseIntOfNegDecimal(n: nat)
    ensures ParseInt("-" + DecimalString(n)) == Some(-(n as int))
  {
    var ds := DecimalString(n);
    DigitsValueOfDecimal(n);
    MinusThen(ds);
    ParseIntAfterMinus("-" + ds, ds, n);
  }

  /** White space before the sign or the first digit is skipped. */
  lemma ParseIntAfterPad(pad: string, t: string)
    requires forall i :: 0 <= i < |pad| ==> IsWhitespace(pad[i])
    requires t != [] && !IsWhitespace(t[0])
    ensures ParseInt(pad + t) == ParseSigned(t)
  {
    TrimStartSkipsPad(pad, t);
  }

  /** TrimStart drops exactly a run of white space that is followed by something else. */
  lemma {:induction false} TrimStartSkipsPad(pad: string, t: string)
    requires forall i :: 0 <= i < |pad| ==> IsWhitespace(pad[i])
    requires t != [] && !IsWhitespace(t[0])
    ensures TrimStart(pad + t) == t
    decreases |pad|
  {
    if pad != [] {
      assert (pad + t)[1..] == pad[1..] + t;
      TrimStartSkipsPad(pad[1..], t);
    }
  }

  /** A string with no digit after its optional sign is NaN. */
  lemma ParseIntWithoutDigits(s: string)
    requires forall i :: 0 <= i < |s| ==> !IsDigit(s[i])
    ensures ParseInt(s) == None
  {
    var t := TrimStart(s);
    var body := if t != [] && (t[0] == '-' || t[0] == '+') then t[1..] else t;
    assert body != [] ==> body[0] == s[|s| - |body|];
  }

  /** How many elements `xs.slice(0, end)` keeps from a list of `len` elements,
      with None standing for NaN (which counts as 0). */
  function SliceEnd(len: nat, end: Option<int>): (n: nat)
    ensures n <= len
    ensures end.None? ==> n == 0
    ensures end.Some? && end.value >= 0 ==> n == if end.value < len then end.value else len
    ensures end.Some? && end.value < 0 ==> n == if len + end.value > 0 then len + end.value else 0
  {
    match end
    case None => 0
    case Some(e) =>
      if e < 0 then (if len + e > 0 then len + e else 0)
      else if e < len then e else len
  }
}
