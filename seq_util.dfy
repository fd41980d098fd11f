/** Order-preservation vocabulary over sequences, used by the registry lookups, the
    preference lists and the aggregator. */
module SeqUtil {

  /** `a` can be obtained from `b` by deleting elements, keeping the order of the rest. */
  predicate IsSubsequence<T(==)>(a: seq<T>, b: seq<T>)
    decreases |b|
  {
    if a == [] then true
    else if b == [] then false
    else if a[0] == b[0] then IsSubsequence(a[1..], b[1..])
    else IsSubsequence(a, b[1..])
  }

  /** Every element of a subsequence is an element of the whole. */
  lemma {:induction false} SubsequenceMembers<T>(a: seq<T>, b: seq<T>)
    requires IsSubsequence(a, b)
    ensures forall x :: x in a ==> x in b
    decreases |b|
  {
    if a == [] {
    } else if a[0] == b[0] {
      SubsequenceMembers(a[1..], b[1..]);
      assert forall x :: x in a ==> x == a[0] || x in a[1..];
    } else {
      SubsequenceMembers(a, b[1..]);
    }
  }

  /** Elements that all differ from each other. */
  predicate Distinct<T(==)>(s: seq<T>)
  {
    forall i, j :: 0 <= i < j < |s| ==> s[i] != s[j]
  }

  /** The elements satisfying `p`, in order (Array.prototype.filter). */
  function Filter<T>(s: seq<T>, p: T -> bool): (r: seq<T>)
    ensures |r| <= |s|
  {
    if s == [] then [] else (if p(s[0]) then [s[0]] else []) + Filter(s[1..], p)
  }

  /** The selection holds exactly the elements of `s` that satisfy `p`. */
  lemma FilterMembers<T>(s: seq<T>, p: T -> bool)
    ensures forall i :: 0 <= i < |Filter(s, p)| ==>
              p(Filter(s, p)[i]) && Filter(s, p)[i] in s
    ensures forall n :: 0 <= n < |s| && p(s[n]) ==> s[n] in Filter(s, p)
  {
    FilterKeepsOnlySelected(s, p);
    FilterKeepsAllSelected(s, p);
  }

  /** Every element of the selection satisfies `p` and comes from `s`. */
  lemma {:induction false} FilterKeepsOnlySelected<T>(s: seq<T>, p: T -> bool)
    ensures forall i :: 0 <= i < |Filter(s, p)| ==>
              p(Filter(s, p)[i]) && Filter(s, p)[i] in s
    decreases |s|
  {
    if s != [] {
      FilterKeepsOnlySelected(s[1..], p);
      var head := if p(s[0]) then [s[0]] else [];
      var rest := Filter(s[1..], p);
      var r := Filter(s, p);
      assert r == head + rest;
      forall i | 0 <= i < |r|
        ensures p(r[i]) && r[i] in s
      {
        if i >= |head| {
          assert r[i] == rest[i - |head|];
          var n :| 0 <= n < |s[1..]| && s[1..][n] == rest[i - |head|];
          assert s[n + 1] == r[i];
        } else {
          assert s[0] == r[i];
        }
      }
    }
  }

  /** Every element of `s` that satisfies `p` is in the selection. */
  lemma {:induction false} FilterKeepsAllSelected<T>(s: seq<T>, p: T -> bool)
    ensures forall n :: 0 <= n < |s| && p(s[n]) ==> s[n] in Filter(s, p)
    decreases |s|
  {
    if s != [] {
      FilterKeepsAllSelected(s[1..], p);
      var head := if p(s[0]) then [s[0]] else [];
      var rest := Filter(s[1..], p);
      var r := Filter(s, p);
      assert r == head + rest;
      forall n | 0 <= n < |s| && p(s[n])
        ensures s[n] in r
      {
        if n == 0 {
          assert r[0] == s[0];
        } else {
          assert s[1..][n - 1] == s[n];
          var i :| 0 <= i < |rest| && rest[i] == s[n];
          assert r[i + |head|] == s[n];
        }
      }
    }
  }

  /** The selection keeps the order of the original. */
  lemma {:induction false} FilterIsSubsequence<T>(s: seq<T>, p: T -> bool)
    ensures IsSubsequence(Filter(s, p), s)
    decreases |s|
  {
    if s != [] {
      FilterIsSubsequence(s[1..], p);
      var rest := Filter(s[1..], p);
      if p(s[0]) {
        assert Filter(s, p) == [s[0]] + rest;
        assert ([s[0]] + rest)[1..] == rest;
      } else {
        assert Filter(s, p) == rest;
        SubsequenceSkip(rest, s);
      }
    }
  }

  /** A subsequence of `b[1..]` is a subsequence of `b`. */
  lemma {:induction false} SubsequenceSkip<T>(a: seq<T>, b: seq<T>)
    requires b != [] && IsSubsequence(a, b[1..])
    ensures IsSubsequence(a, b)
    decreases |b|
  {
    if a != [] && a[0] == b[0] {
      SubsequenceTail(a, b[1..]);
      SubsequenceSkip(a[1..], b[1..]);
    }
  }

  /** Dropping the head of a subsequence and of the whole keeps a subsequence. */
  lemma {:induction false} SubsequenceTail<T>(a: seq<T>, b: seq<T>)
    requires a != [] && IsSubsequence(a, b)
    ensures IsSubsequence(a[1..], b[1..])
    decreases |b|
  {
    if a[0] != b[0] {
      SubsequenceTail(a, b[1..]);
      SubsequenceSkip(a[1..], b[1..]);
    }
  }

  /** A selection that every element passes keeps the whole sequence. */
  lemma {:induction false} FilterAll<T>(s: seq<T>, p: T -> bool)
    requires forall n :: 0 <= n < |s| ==> p(s[n])
    ensures Filter(s, p) == s
    decreases |s|
  {
    if s != [] {
      FilterAll(s[1..], p);
    }
  }

  /** A selection that keeps nothing is empty. */
  lemma {:induction false} FilterNone<T>(s: seq<T>, p: T -> bool)
    requires forall n :: 0 <= n < |s| ==> !p(s[n])
    ensures Filter(s, p) == []
    decreases |s|
  {
    if s != [] {
      FilterNone(s[1..], p);
    }
  }

  /** Filtering distributes over concatenation. */
  lemma {:induction false} FilterAppend<T>(a: seq<T>, b: seq<T>, p: T -> bool)
    ensures Filter(a + b, p) == Filter(a, p) + Filter(b, p)
    decreases |a|
  {
    if a == [] {
      assert a + b == b;
    } else {
      var head := if p(a[0]) then [a[0]] else [];
      assert (a + b)[0] == a[0] && (a + b)[1..] == a[1..] + b;
      assert Filter(a + b, p) == head + Filter(a[1..] + b, p);
      FilterAppend(a[1..], b, p);
      assert Filter(a, p) == head + Filter(a[1..], p);
    }
  }
}
