/** The newest-first ordering of the pooled articles. `Array.prototype.sort` is stable,
    and the comparator `b - a` on timestamps puts a later instant first, so the pool
    comes out in descending key order with ties in their original order. The
    specification is a stable insertion: each element goes after every element that
    is at least as new. */
module NewestFirst {
  import opened SeqUtil

  /** Keys never increase from left to right. */
  predicate SortedDescending<T>(s: seq<T>, key: T -> int)
  {
    forall i, j :: 0 <= i < j < |s| ==> key(s[i]) >= key(s[j])
  }

  /** `x` inserted into `s` after every element whose key is at least `key(x)`,
      scanning from the end. */
  function Insert<T>(s: seq<T>, x: T, key: T -> int): (r: seq<T>)
    ensures |r| == |s| + 1
  {
    if s == [] || key(s[|s| - 1]) >= key(x) then s + [x]
    else Insert(s[..|s| - 1], x, key) + [s[|s| - 1]]
  }

  /** The stable newest-first sort: the elements inserted one at a time, in order. */
  function SortNewestFirst<T>(s: seq<T>, key: T -> int): (r: seq<T>)
    ensures |r| == |s|
  {
    if s == [] then []
    else Insert(SortNewestFirst(s[..|s| - 1], key), s[|s| - 1], key)
  }

  /** Insertion adds exactly the one element. */
  lemma {:induction false} InsertIsPermutation<T>(s: seq<T>, x: T, key: T -> int)
    ensures multiset(Insert(s, x, key)) == multiset(s) + multiset{x}
    decreases |s|
  {
    if s != [] && key(s[|s| - 1]) < key(x) {
      assert s == s[..|s| - 1] + [s[|s| - 1]];
      InsertIsPermutation(s[..|s| - 1], x, key);
    }
  }

  /** The sort rearranges its input and neither adds nor drops anything. */
  lemma {:induction false} SortIsPermutation<T>(s: seq<T>, key: T -> int)
    ensures multiset(SortNewestFirst(s, key)) == multiset(s)
    decreases |s|
  {
    if s != [] {
      assert s == s[..|s| - 1] + [s[|s| - 1]];
      SortIsPermutation(s[..|s| - 1], key);
      InsertIsPermutation(SortNewestFirst(s[..|s| - 1], key), s[|s| - 1], key);
    }
  }

  /** Inserting into a sorted list keeps it sorted. */
  lemma {:induction false} InsertKeepsSorted<T>(s: seq<T>, x: T, key: T -> int)
    requires SortedDescending(s, key)
    ensures SortedDescending(Insert(s, x, key), key)
    decreases |s|
  {
    if s == [] || key(s[|s| - 1]) >= key(x) {
    } else {
      var init := s[..|s| - 1];
      var last := s[|s| - 1];
      InsertKeepsSorted(init, x, key);
      InsertIsPermutation(init, x, key);
      var r := Insert(init, x, key);
      forall y | y in r
        ensures key(y) >= key(last)
      {
        assert y in multiset(r);
        if y != x {
          assert y in multiset(init);
          var i :| 0 <= i < |init| && init[i] == y;
          assert s[i] == y;
        }
      }
      forall i, j | 0 <= i < j < |r| + 1
        ensures key((r + [last])[i]) >= key((r + [last])[j])
      {
        if j == |r| {
          assert (r + [last])[i] == r[i];
          assert r[i] in r;
        }
      }
    }
  }

  /** The sort's output is in newest-first order. */
  lemma {:induction false} SortIsSortedDescending<T>(s: seq<T>, key: T -> int)
    ensures SortedDescending(SortNewestFirst(s, key), key)
    decreases |s|
  {
    if s != [] {
      SortIsSortedDescending(s[..|s| - 1], key);
      InsertKeepsSorted(SortNewestFirst(s[..|s| - 1], key), s[|s| - 1], key);
    }
  }

  /** Selects the elements with key exactly `t`. */
  function KeyIs<T>(key: T -> int, t: int): T -> bool
  {
    x => key(x) == t
  }

  /** A single element survives the selection exactly when it satisfies it. */
  lemma FilterSingleton<T>(x: T, p: T -> bool)
    ensures Filter([x], p) == if p(x) then [x] else []
  {
    assert [x][1..] == [];
  }

  /** Among elements with equal keys, insertion puts `x` last. */
  lemma {:induction false} InsertIsStable<T>(s: seq<T>, x: T, key: T -> int, t: int)
    ensures Filter(Insert(s, x, key), KeyIs(key, t)) == Filter(s, KeyIs(key, t)) + Filter([x], KeyIs(key, t))
    decreases |s|
  {
    var p := KeyIs(key, t);
    if s == [] || key(s[|s| - 1]) >= key(x) {
      FilterAppend(s, [x], p);
    } else {
      var init := s[..|s| - 1];
      var last := s[|s| - 1];
      assert s == init + [last];
      InsertIsStable(init, x, key, t);
      FilterAppend(Insert(init, x, key), [last], p);
      FilterAppend(init, [last], p);
      FilterSingleton(x, p);
      FilterSingleton(last, p);
    }
  }

  /** The sort is stable: the elements with any one key keep their input order. */
  lemma {:induction false} SortIsStable<T>(s: seq<T>, key: T -> int, t: int)
    ensures Filter(SortNewestFirst(s, key), KeyIs(key, t)) == Filter(s, KeyIs(key, t))
    decreases |s|
  {
    if s != [] {
      var init := s[..|s| - 1];
      SortIsStable(init, key, t);
      InsertIsStable(SortNewestFirst(init, key), s[|s| - 1], key, t);
      assert s == init + [s[|s| - 1]];
      FilterAppend(init, [s[|s| - 1]], KeyIs(key, t));
    }
  }

  /** A bound on every key holds for every key of a selection. */
  lemma {:induction false} FilterKeepsBound<T>(s: seq<T>, p: T -> bool, key: T -> int, bound: int)
    requires forall n :: 0 <= n < |s| ==> key(s[n]) <= bound
    ensures forall i :: 0 <= i < |Filter(s, p)| ==> key(Filter(s, p)[i]) <= bound
    decreases |s|
  {
    if s != [] {
      FilterKeepsBound(s[1..], p, key, bound);
      var head := if p(s[0]) then [s[0]] else [];
      assert Filter(s, p) == head + Filter(s[1..], p);
    }
  }

  /** Every order-preserving selection of a sorted list is sorted. */
  lemma {:induction false} FilterKeepsSorted<T>(s: seq<T>, p: T -> bool, key: T -> int)
    requires SortedDescending(s, key)
    ensures SortedDescending(Filter(s, p), key)
    decreases |s|
  {
    if s != [] {
      assert SortedDescending(s[1..], key);
      FilterKeepsSorted(s[1..], p, key);
      var rest := Filter(s[1..], p);
      FilterKeepsBound(s[1..], p, key, key(s[0]));
      var head := if p(s[0]) then [s[0]] else [];
      assert Filter(s, p) == head + rest;
      forall i, j | 0 <= i < j < |head + rest|
        ensures key((head + rest)[i]) >= key((head + rest)[j])
      {
        if i >= |head| {
          assert (head + rest)[i] == rest[i - |head|] && (head + rest)[j] == rest[j - |head|];
        } else {
          assert (head + rest)[i] == s[0] && (head + rest)[j] == rest[j - 1];
        }
      }
    }
  }

  /** Where insertion puts `x`: after the last element at least as new, before the
      strictly older run that ends the list. */
  lemma {:induction false} InsertPosition<T>(s: seq<T>, j: nat, x: T, key: T -> int)
    requires j <= |s|
    requires j == 0 || key(s[j - 1]) >= key(x)
    requires forall k :: j <= k < |s| ==> key(s[k]) < key(x)
    ensures Insert(s, x, key) == s[..j] + [x] + s[j..]
    decreases |s|
  {
    if j < |s| {
      var init := s[..|s| - 1];
      InsertPosition(init, j, x, key);
      assert init[..j] == s[..j];
      assert s[j..] == init[j..] + [s[|s| - 1]];
    } else {
      assert s[..j] == s;
    }
  }

  /** One step of the insertion sort: the element at `i` moves left past every element
      with a strictly smaller key, each one shifted a place right. */
  method InsertAt<T>(a: array<T>, i: nat, key: T -> int)
    requires i < a.Length
    modifies a
    ensures a[..i + 1] == Insert(old(a[..i]), old(a[i]), key)
    ensures a[i + 1..] == old(a[i + 1..])
  {
    var x := a[i];
    ghost var sorted := a[..i];
    ghost var rest := a[i + 1..];
    LayoutOfWhole(a[..], i);
    var j := i;
    while j > 0 && key(a[j - 1]) < key(x)
      invariant 0 <= j <= i
      invariant a[..] == Layout(sorted, j, x, rest)
      invariant forall k :: j <= k < i ==> key(sorted[k]) < key(x)
    {
      LayoutShift(sorted, j, x, rest);
      a[j] := a[j - 1];
      a[j - 1] := x;
      j := j - 1;
    }
    if j > 0 {
      LayoutShift(sorted, j, x, rest);
    }
    InsertPosition(sorted, j, x, key);
    LayoutParts(sorted, j, x, rest);
  }

  /** The array during the insertion: the sorted prefix with `x` at `j`, then the
      elements not yet sorted. */
  ghost function Layout<T>(sorted: seq<T>, j: nat, x: T, rest: seq<T>): seq<T>
    requires j <= |sorted|
  {
    sorted[..j] + [x] + sorted[j..] + rest
  }

  lemma LayoutOfWhole<T>(s: seq<T>, i: nat)
    requires i < |s|
    ensures s == Layout(s[..i], i, s[i], s[i + 1..])
  {
    assert s[..i][..i] == s[..i] && s[..i][i..] == [];
    assert s == s[..i] + [s[i]] + s[i + 1..];
  }

  /** Moving `x` one place left swaps it with the sorted element before it. */
  lemma LayoutShift<T>(sorted: seq<T>, j: nat, x: T, rest: seq<T>)
    requires 0 < j <= |sorted|
    ensures Layout(sorted, j, x, rest)[j - 1] == sorted[j - 1]
    ensures Layout(sorted, j, x, rest)[j := sorted[j - 1]][j - 1 := x] == Layout(sorted, j - 1, x, rest)
  {
    var l := Layout(sorted, j, x, rest);
    var m := Layout(sorted, j - 1, x, rest);
    var u := l[j := sorted[j - 1]][j - 1 := x];
    assert |u| == |m|;
    forall k | 0 <= k < |m|
      ensures u[k] == m[k]
    {
      if k < j - 1 {
        assert u[k] == l[k] == sorted[k] == m[k];
      } else if k > j {
        assert u[k] == l[k];
      }
    }
  }

  lemma LayoutParts<T>(sorted: seq<T>, j: nat, x: T, rest: seq<T>)
    requires j <= |sorted|
    ensures Layout(sorted, j, x, rest)[..|sorted| + 1] == sorted[..j] + [x] + sorted[j..]
    ensures Layout(sorted, j, x, rest)[|sorted| + 1..] == rest
  {
    var front := sorted[..j] + [x] + sorted[j..];
    assert Layout(sorted, j, x, rest) == front + rest;
  }

  /** articles.sort((a, b) => b - a) on the keys: an insertion sort in place. */
  method SortInPlace<T>(a: array<T>, key: T -> int)
    modifies a
    ensures a[..] == SortNewestFirst(old(a[..]), key)
  {
    ghost var input := a[..];
    for i := 0 to a.Length
      invariant a[..i] == SortNewestFirst(input[..i], key)
      invariant a[i..] == input[i..]
    {
      ghost var before := a[..];
      assert before[..i] == a[..i] && before[i] == input[i];
      InsertAt(a, i, key);
      assert input[..i + 1][..i] == input[..i] && input[..i + 1][i] == input[i];
      assert a[i + 1..] == before[i + 1..] == before[i..][1..];
    }
    assert a[..] == a[..a.Length];
    assert input == input[..a.Length];
  }
}
