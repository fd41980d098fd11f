/** The variety step of parseAllFeeds: the sorted pool is grouped by source into an
    insertion-ordered map (a JavaScript `Map` iterates its keys in the order they were
    first set), and the groups are then drained round-robin, one element from every
    non-empty queue per round, queues in map order. */
module RoundRobin {
  import opened SeqUtil

  /** One entry of the map: a source id and its queue. */
  datatype Bucket<T> = Bucket(key: string, items: seq<T>)

  /** Where `k` is in the map, or -1 when it is absent (Map.prototype.get). */
  function KeyIndex<T>(gs: seq<Bucket<T>>, k: string): (r: int)
    ensures -1 <= r < |gs|
    ensures r >= 0 ==> gs[r].key == k
    ensures r < 0 <==> forall i :: 0 <= i < |gs| ==> gs[i].key != k
  {
    if gs == [] then -1
    else if gs[|gs| - 1].key == k then |gs| - 1
    else KeyIndex(gs[..|gs| - 1], k)
  }

  /** One turn of the grouping loop: `x` is appended to its key's queue, which is created
      at the end of the map when the key is new. */
  function AddTo<T>(gs: seq<Bucket<T>>, x: T, key: T -> string): seq<Bucket<T>>
  {
    var i := KeyIndex(gs, key(x));
    if i < 0 then gs + [Bucket(key(x), [x])]
    else gs[i := Bucket(key(x), gs[i].items + [x])]
  }

  /** The map after the grouping loop has seen all of `s`. */
  function GroupBy<T>(s: seq<T>, key: T -> string): seq<Bucket<T>>
  {
    if s == [] then [] else AddTo(GroupBy(s[..|s| - 1], key), s[|s| - 1], key)
  }

  /** Selects the elements whose key is `k`. */
  function HasKey<T>(key: T -> string, k: string): T -> bool
  {
    x => key(x) == k
  }

  function Keys<T>(gs: seq<Bucket<T>>): seq<string>
  {
    seq(|gs|, i requires 0 <= i < |gs| => gs[i].key)
  }

  function Queues<T>(gs: seq<Bucket<T>>): seq<seq<T>>
  {
    seq(|gs|, i requires 0 <= i < |gs| => gs[i].items)
  }

  /** The keys of `s` in order of first appearance, each once. */
  function FirstAppearances(ks: seq<string>): (r: seq<string>)
  {
    if ks == [] then []
    else
      var d := FirstAppearances(ks[..|ks| - 1]);
      if ks[|ks| - 1] in d then d else d + [ks[|ks| - 1]]
  }

  function KeysOf<T>(s: seq<T>, key: T -> string): seq<string>
  {
    seq(|s|, n requires 0 <= n < |s| => key(s[n]))
  }

  lemma FilterLast<T>(s: seq<T>, p: T -> bool)
    requires s != []
    ensures Filter(s, p) == Filter(s[..|s| - 1], p) + (if p(s[|s| - 1]) then [s[|s| - 1]] else [])
  {
    assert s == s[..|s| - 1] + [s[|s| - 1]];
    FilterAppend(s[..|s| - 1], [s[|s| - 1]], p);
    assert [s[|s| - 1]][1..] == [];
  }

  /** The keys seen, each once, first appearance first. */
  lemma {:induction false} FirstAppearancesFacts(ks: seq<string>)
    ensures Distinct(FirstAppearances(ks))
    ensures forall k :: k in FirstAppearances(ks) <==> k in ks
    decreases |ks|
  {
    if ks != [] {
      var init := ks[..|ks| - 1];
      FirstAppearancesFacts(init);
      assert ks == init + [ks[|ks| - 1]];
    }
  }

  /** One turn of the grouping loop adds the key at the end when it is new, and keeps
      the keys otherwise. */
  lemma AddToKeys<T>(gs: seq<Bucket<T>>, x: T, key: T -> string)
    ensures Keys(AddTo(gs, x, key)) == if key(x) in Keys(gs) then Keys(gs) else Keys(gs) + [key(x)]
  {
    var idx := KeyIndex(gs, key(x));
    if idx >= 0 {
      assert Keys(gs)[idx] == key(x);
    }
  }

  /** The map's keys are the keys of `s` in order of first appearance. */
  lemma {:induction false} GroupByKeys<T>(s: seq<T>, key: T -> string)
    ensures Keys(GroupBy(s, key)) == FirstAppearances(KeysOf(s, key))
    decreases |s|
  {
    if s != [] {
      var init := s[..|s| - 1];
      GroupByKeys(init, key);
      AddToKeys(GroupBy(init, key), s[|s| - 1], key);
      assert KeysOf(s, key)[..|s| - 1] == KeysOf(init, key);
    }
  }

  /** The map's keys are distinct and cover every element. */
  lemma GroupByKeysDistinctAndComplete<T>(s: seq<T>, key: T -> string)
    ensures Distinct(Keys(GroupBy(s, key)))
    ensures forall n :: 0 <= n < |s| ==> key(s[n]) in Keys(GroupBy(s, key))
  {
    GroupByKeys(s, key);
    FirstAppearancesFacts(KeysOf(s, key));
    forall n | 0 <= n < |s|
      ensures key(s[n]) in Keys(GroupBy(s, key))
    {
      assert KeysOf(s, key)[n] == key(s[n]);
    }
  }

  /** Each queue holds exactly the elements of `s` with its key, in their order in `s`;
      so no queue is empty. */
  lemma {:induction false} GroupByQueues<T>(s: seq<T>, key: T -> string)
    ensures forall i :: 0 <= i < |GroupBy(s, key)| ==>
              GroupBy(s, key)[i].items == Filter(s, HasKey(key, GroupBy(s, key)[i].key))
    ensures forall i :: 0 <= i < |GroupBy(s, key)| ==> GroupBy(s, key)[i].items != []
    decreases |s|
  {
    if s != [] {
      var init := s[..|s| - 1];
      var x := s[|s| - 1];
      var k := key(x);
      GroupByQueues(init, key);
      GroupByKeysDistinctAndComplete(init, key);
      var g0 := GroupBy(init, key);
      var gs := GroupBy(s, key);
      var idx := KeyIndex(g0, k);
      forall i | 0 <= i < |gs|
        ensures gs[i].items == Filter(s, HasKey(key, gs[i].key))
        ensures gs[i].items != []
      {
        FilterLast(s, HasKey(key, gs[i].key));
        if idx < 0 && i == |g0| {
          forall n | 0 <= n < |init|
            ensures key(init[n]) != k
          {
            var j :| 0 <= j < |g0| && Keys(g0)[j] == key(init[n]);
          }
          FilterNone(init, HasKey(key, k));
        } else if i != idx {
          assert gs[i] == g0[i];
          if idx >= 0 {
            assert Keys(g0)[idx] == k && Keys(g0)[i] == g0[i].key;
          }
        }
      }
    }
  }

  /** One turn of the grouping loop adds exactly its element to the queues. */
  lemma AddToAddsOne<T>(gs: seq<Bucket<T>>, x: T, key: T -> string)
    ensures multiset(Flatten(Queues(AddTo(gs, x, key)))) == multiset(Flatten(Queues(gs))) + multiset{x}
  {
    var idx := KeyIndex(gs, key(x));
    var qs := Queues(gs);
    if idx < 0 {
      var r := qs + [[x]];
      assert Queues(AddTo(gs, x, key)) == r;
      assert r[..|r| - 1] == qs;
      FlattenLast(r);
    } else {
      assert Queues(AddTo(gs, x, key)) == qs[idx := qs[idx] + [x]];
      FlattenUpdate(qs, idx, x);
    }
  }

  /** The grouping neither adds nor drops elements. */
  lemma {:induction false} GroupByIsPermutation<T>(s: seq<T>, key: T -> string)
    ensures multiset(Flatten(Queues(GroupBy(s, key)))) == multiset(s)
    decreases |s|
  {
    if s != [] {
      var init := s[..|s| - 1];
      GroupByIsPermutation(init, key);
      AddToAddsOne(GroupBy(init, key), s[|s| - 1], key);
      assert s == init + [s[|s| - 1]];
    }
  }

  // ---------------------------------------------------------------- the queues

  /** All the queues one after another. */
  function Flatten<T>(qs: seq<seq<T>>): seq<T>
  {
    if qs == [] then [] else Flatten(qs[..|qs| - 1]) + qs[|qs| - 1]
  }

  lemma FlattenLast<T>(qs: seq<seq<T>>)
    requires qs != []
    ensures Flatten(qs) == Flatten(qs[..|qs| - 1]) + qs[|qs| - 1]
  {
  }

  /** Appending to one queue adds that element to the whole. */
  lemma {:induction false} FlattenUpdate<T>(qs: seq<seq<T>>, i: nat, x: T)
    requires i < |qs|
    ensures multiset(Flatten(qs[i := qs[i] + [x]])) == multiset(Flatten(qs)) + multiset{x}
    decreases |qs|
  {
    var n := |qs| - 1;
    if i == n {
      FlattenUpdateLast(qs, x);
    } else {
      var r := qs[i := qs[i] + [x]];
      var init := qs[..n];
      assert init[i] == qs[i];
      assert r[..n] == init[i := init[i] + [x]];
      FlattenUpdate(init, i, x);
      assert Flatten(qs) == Flatten(init) + qs[n];
      assert Flatten(r) == Flatten(r[..n]) + qs[n];
    }
  }

  lemma FlattenUpdateLast<T>(qs: seq<seq<T>>, x: T)
    requires qs != []
    ensures multiset(Flatten(qs[|qs| - 1 := qs[|qs| - 1] + [x]])) == multiset(Flatten(qs)) + multiset{x}
  {
    var n := |qs| - 1;
    var r := qs[n := qs[n] + [x]];
    assert r[..n] == qs[..n];
    assert Flatten(qs) == Flatten(qs[..n]) + qs[n];
    assert Flatten(r) == Flatten(qs[..n]) + (qs[n] + [x]);
  }

  /** The first element of a queue, if any. */
  function HeadOf<T>(q: seq<T>): seq<T>
  {
    if q == [] then [] else [q[0]]
  }

  /** A queue after `shift()`; an empty queue stays empty. */
  function Tail<T>(q: seq<T>): seq<T>
  {
    if q == [] then [] else q[1..]
  }

  /** What one round takes: the first element of every non-empty queue, in queue order. */
  function Heads<T>(qs: seq<seq<T>>): seq<T>
  {
    if qs == [] then [] else Heads(qs[..|qs| - 1]) + HeadOf(qs[|qs| - 1])
  }

  /** When no queue is empty a round takes the first element of each, in queue order. */
  lemma {:induction false} HeadsOfNonEmptyQueues<T>(qs: seq<seq<T>>)
    requires forall i :: 0 <= i < |qs| ==> qs[i] != []
    ensures |Heads(qs)| == |qs|
    ensures forall i :: 0 <= i < |qs| ==> Heads(qs)[i] == qs[i][0]
    decreases |qs|
  {
    if qs != [] {
      var n := |qs| - 1;
      HeadsOfNonEmptyQueues(qs[..n]);
      assert Heads(qs) == Heads(qs[..n]) + [qs[n][0]];
    }
  }

  /** What one round leaves. */
  function Tails<T>(qs: seq<seq<T>>): seq<seq<T>>
  {
    seq(|qs|, i requires 0 <= i < |qs| => Tail(qs[i]))
  }

  /** A round splits the queues into what it takes and what it leaves. */
  lemma {:induction false} RoundSplitsQueues<T>(qs: seq<seq<T>>)
    ensures multiset(Heads(qs)) + multiset(Flatten(Tails(qs))) == multiset(Flatten(qs))
    decreases |qs|
  {
    if qs != [] {
      var n := |qs| - 1;
      var q := qs[n];
      var t := Tails(qs);
      RoundSplitsQueues(qs[..n]);
      assert t[..n] == Tails(qs[..n]);
      FlattenLast(t);
      HeadAndTail(q);
      SplitStep(Heads(qs[..n]), Flatten(Tails(qs[..n])), Flatten(qs[..n]), HeadOf(q), Tail(q));
    }
  }

  /** Appending `a` to what is taken and `b` to what is left keeps the split of
      everything followed by `a + b`. */
  lemma SplitStep<T>(taken: seq<T>, left: seq<T>, all: seq<T>, a: seq<T>, b: seq<T>)
    requires multiset(taken) + multiset(left) == multiset(all)
    ensures multiset(taken + a) + multiset(left + b) == multiset(all + (a + b))
  {
  }

  /** A round takes something exactly when something is queued. */
  lemma {:induction false} HeadsEmptyIffNothingQueued<T>(qs: seq<seq<T>>)
    ensures Heads(qs) == [] <==> Flatten(qs) == []
    decreases |qs|
  {
    if qs != [] {
      var n := |qs| - 1;
      HeadsEmptyIffNothingQueued(qs[..n]);
      assert Heads(qs) == Heads(qs[..n]) + HeadOf(qs[n]);
      assert Flatten(qs) == Flatten(qs[..n]) + qs[n];
    }
  }

  /** A round takes something exactly when something is queued, and then leaves less. */
  lemma RoundShrinks<T>(qs: seq<seq<T>>)
    ensures Heads(qs) == [] <==> Flatten(qs) == []
    ensures Flatten(qs) != [] ==> |Flatten(Tails(qs))| < |Flatten(qs)|
    ensures Flatten(qs) == [] ==> Flatten(Tails(qs)) == []
  {
    RoundSplitsQueues(qs);
    HeadsEmptyIffNothingQueued(qs);
    assert |multiset(Heads(qs))| + |multiset(Flatten(Tails(qs)))| == |multiset(Flatten(qs))|;
  }

  /** The round-robin order: rounds one after another until every queue is empty. */
  function Interleave<T>(qs: seq<seq<T>>): seq<T>
    decreases |Flatten(qs)|
  {
    if Flatten(qs) == [] then []
    else
      RoundShrinks(qs);
      Heads(qs) + Interleave(Tails(qs))
  }

  /** The round-robin order holds every queued element exactly once. */
  lemma {:induction false} InterleaveIsPermutation<T>(qs: seq<seq<T>>)
    ensures multiset(Interleave(qs)) == multiset(Flatten(qs))
    decreases |Flatten(qs)|
  {
    RoundSplitsQueues(qs);
    RoundShrinks(qs);
    if Flatten(qs) != [] {
      InterleaveIsPermutation(Tails(qs));
    }
  }

  /** Every element of `q` has the key `k`. */
  predicate Keyed<T>(q: seq<T>, k: string, key: T -> string)
  {
    forall n :: 0 <= n < |q| ==> key(q[n]) == k
  }

  /** The queues are labelled by distinct keys, and each queue holds only its key. */
  predicate Labelled<T>(qs: seq<seq<T>>, ks: seq<string>, key: T -> string)
  {
    |ks| == |qs| && Distinct(ks) && forall i :: 0 <= i < |qs| ==> Keyed(qs[i], ks[i], key)
  }

  /** The first queues of a labelled map are labelled by the first keys. */
  lemma LabelledPrefix<T>(qs: seq<seq<T>>, ks: seq<string>, key: T -> string, n: nat)
    requires Labelled(qs, ks, key) && n <= |qs|
    ensures Labelled(qs[..n], ks[..n], key)
  {
    forall i | 0 <= i < n
      ensures Keyed(qs[..n][i], ks[..n][i], key)
    {
      assert qs[..n][i] == qs[i] && ks[..n][i] == ks[i];
    }
  }

  /** Filtering the head of a queue keeps it or drops it as the head passes or not. */
  lemma FilterHeadOf<T>(q: seq<T>, p: T -> bool)
    ensures q != [] && p(q[0]) ==> Filter(HeadOf(q), p) == HeadOf(q)
    ensures q == [] || !p(q[0]) ==> Filter(HeadOf(q), p) == []
  {
    if q != [] {
      assert HeadOf(q)[1..] == [];
    }
  }

  /** A round takes nothing with a key that labels no queue. */
  lemma {:induction false} HeadsWithoutKey<T>(qs: seq<seq<T>>, ks: seq<string>, key: T -> string, k: string)
    requires Labelled(qs, ks, key) && k !in ks
    ensures Filter(Heads(qs), HasKey(key, k)) == []
    decreases |qs|
  {
    if qs != [] {
      var n := |qs| - 1;
      LabelledPrefix(qs, ks, key, n);
      HeadsWithoutKey(qs[..n], ks[..n], key, k);
      FilterAppend(Heads(qs[..n]), HeadOf(qs[n]), HasKey(key, k));
      FilterHeadOf(qs[n], HasKey(key, k));
    }
  }

  /** A round takes from the queue with key `ks[j]` its first element and nothing else
      with that key. */
  lemma {:induction false} HeadsWithKey<T>(qs: seq<seq<T>>, ks: seq<string>, key: T -> string, j: nat)
    requires Labelled(qs, ks, key) && j < |qs|
    ensures Filter(Heads(qs), HasKey(key, ks[j])) == HeadOf(qs[j])
    decreases |qs|
  {
    var n := |qs| - 1;
    var p := HasKey(key, ks[j]);
    LabelledPrefix(qs, ks, key, n);
    FilterAppend(Heads(qs[..n]), HeadOf(qs[n]), p);
    FilterHeadOf(qs[n], p);
    if j < n {
      HeadsWithKey(qs[..n], ks[..n], key, j);
      assert ks[..n][j] == ks[j] != ks[n];
    } else {
      HeadsWithoutKey(qs[..n], ks[..n], key, ks[j]);
    }
  }

  /** Shifting keeps the labels. */
  lemma TailsLabelled<T>(qs: seq<seq<T>>, ks: seq<string>, key: T -> string)
    requires Labelled(qs, ks, key)
    ensures Labelled(Tails(qs), ks, key)
  {
    var t := Tails(qs);
    forall i | 0 <= i < |t|
      ensures Keyed(t[i], ks[i], key)
    {
      forall n | 0 <= n < |t[i]|
        ensures key(t[i][n]) == ks[i]
      {
        assert t[i][n] == qs[i][n + 1];
      }
    }
  }

  /** Round-robin keeps each queue's own order: the elements with the key of queue `j`
      come out exactly as queue `j` held them. */
  lemma {:induction false} InterleaveKeepsQueueOrder<T>(qs: seq<seq<T>>, ks: seq<string>, key: T -> string, j: nat)
    requires Labelled(qs, ks, key) && j < |qs|
    ensures Filter(Interleave(qs), HasKey(key, ks[j])) == qs[j]
    decreases |Flatten(qs)|
  {
    if Flatten(qs) == [] {
      QueueWithinFlatten(qs, j);
    } else {
      var t := Tails(qs);
      RoundShrinks(qs);
      TailsLabelled(qs, ks, key);
      InterleaveKeepsQueueOrder(t, ks, key, j);
      HeadsWithKey(qs, ks, key, j);
      RoundKeepsQueueOrder(qs, HasKey(key, ks[j]), j);
    }
  }

  /** One round of the induction: when the selection picks queue `j`'s head out of the
      round and queue `j`'s rest out of the later rounds, it picks queue `j` out of the
      whole. */
  lemma RoundKeepsQueueOrder<T>(qs: seq<seq<T>>, p: T -> bool, j: nat)
    requires j < |qs|
    requires Filter(Heads(qs), p) == HeadOf(qs[j])
    requires Filter(Interleave(Tails(qs)), p) == Tails(qs)[j]
    ensures Filter(Interleave(qs), p) == qs[j]
  {
    var q := qs[j];
    InterleaveUnfolds(qs);
    FilterAppend(Heads(qs), Interleave(Tails(qs)), p);
    assert Tails(qs)[j] == Tail(q);
    HeadAndTail(q);
  }

  /** A queue is its head followed by its tail. */
  lemma HeadAndTail<T>(q: seq<T>)
    ensures HeadOf(q) + Tail(q) == q
  {
    if q != [] {
      assert [q[0]] + q[1..] == q;
    }
  }

  /** Every queue fits in the whole. */
  lemma {:induction false} QueueWithinFlatten<T>(qs: seq<seq<T>>, j: nat)
    requires j < |qs|
    ensures |qs[j]| <= |Flatten(qs)|
    decreases |qs|
  {
    var n := |qs| - 1;
    assert Flatten(qs) == Flatten(qs[..n]) + qs[n];
    if j < n {
      assert qs[..n][j] == qs[j];
      QueueWithinFlatten(qs[..n], j);
    }
  }

  // ---------------------------------------------------------------- the loops

  /** The grouping loop: each element is appended to the queue of its key, a new key
      getting a new queue at the end. */
  method GroupBySource<T>(s: seq<T>, key: T -> string) returns (groups: seq<Bucket<T>>)
    ensures groups == GroupBy(s, key)
  {
    groups := [];
    for i := 0 to |s|
      invariant groups == GroupBy(s[..i], key)
    {
      var x := s[i];
      var k := key(x);
      var idx := KeyIndex(groups, k);
      if idx < 0 {
        groups := groups + [Bucket(k, [x])];
      } else {
        groups := groups[idx := Bucket(k, groups[idx].items + [x])];
      }
      assert s[..i + 1][..i] == s[..i];
    }
    assert s[..|s|] == s;
  }

  /** Some queue holds two or more elements. */
  predicate HasLongQueue<T>(qs: seq<seq<T>>)
  {
    exists j :: 0 <= j < |qs| && |qs[j]| > 1
  }

  /** One pass of the `for` loop over the queues: every non-empty queue gives up its
      first element, which is pushed onto `interleaved`; `hasMore` records whether any
      of those queues still had something left. */
  method TakeRound<T>(queues: seq<seq<T>>, interleaved: seq<T>)
    returns (rest: seq<seq<T>>, extended: seq<T>, hasMore: bool)
    ensures rest == Tails(queues)
    ensures extended == interleaved + Heads(queues)
    ensures hasMore <==> HasLongQueue(queues)
  {
    rest := queues;
    extended := interleaved;
    hasMore := false;
    assert rest == Tails(queues[..0]) + queues[0..];
    for k := 0 to |queues|
      invariant rest == Tails(queues[..k]) + queues[k..]
      invariant extended == interleaved + Heads(queues[..k])
      invariant hasMore <==> HasLongQueue(queues[..k])
    {
      RoundAdvances(queues, k);
      if |rest[k]| > 0 {
        extended := extended + [rest[k][0]];
        rest := rest[k := rest[k][1..]];
        hasMore := hasMore || |rest[k]| > 0;
      } else {
        assert rest[k := Tail(queues[k])] == rest;
      }
    }
    assert queues[..|queues|] == queues;
    assert Tails(queues) + queues[|queues|..] == Tails(queues);
  }

  /** What the pass over the queues knows after visiting queue `k` as well. */
  lemma RoundAdvances<T>(qs: seq<seq<T>>, k: nat)
    requires k < |qs|
    ensures (Tails(qs[..k]) + qs[k..])[k] == qs[k]
    ensures (Tails(qs[..k]) + qs[k..])[k := Tail(qs[k])] == Tails(qs[..k + 1]) + qs[k + 1..]
    ensures Heads(qs[..k + 1]) == Heads(qs[..k]) + HeadOf(qs[k])
    ensures HasLongQueue(qs[..k + 1]) <==> HasLongQueue(qs[..k]) || |qs[k]| > 1
  {
    assert qs[..k + 1][..k] == qs[..k];
    assert qs[..k + 1][k] == qs[k];
    if HasLongQueue(qs[..k]) {
      var j :| 0 <= j < k && |qs[..k][j]| > 1;
      assert qs[..k + 1][j] == qs[..k][j];
    }
    if HasLongQueue(qs[..k + 1]) && |qs[k]| <= 1 {
      var j :| 0 <= j < k + 1 && |qs[..k + 1][j]| > 1;
      assert qs[..k][j] == qs[..k + 1][j];
    }
  }

  /** Something is left after a round exactly when some queue held two or more. */
  lemma RoundLeavesSomething<T>(qs: seq<seq<T>>)
    ensures Flatten(Tails(qs)) != [] <==> HasLongQueue(qs)
  {
    var t := Tails(qs);
    forall j | 0 <= j < |qs| && |qs[j]| > 1
      ensures Flatten(t) != []
    {
      QueueWithinFlatten(t, j);
    }
    if !HasLongQueue(qs) {
      AllEmptyFlattensEmpty(t);
    }
  }

  /** What the draining loop needs of one round: it extends the order by the round's
      elements, leaves less behind when it took something, and stops only when nothing
      is left. */
  lemma RoundStep<T>(qs: seq<seq<T>>, hasMore: bool, taken: seq<T>)
    requires hasMore <==> HasLongQueue(qs)
    ensures (taken + Heads(qs)) + Interleave(Tails(qs)) == taken + Interleave(qs)
    ensures |Flatten(Tails(qs))| < |Flatten(qs)| || (Flatten(qs) == [] && !hasMore)
    ensures !hasMore ==> Flatten(Tails(qs)) == []
  {
    RoundShrinks(qs);
    RoundLeavesSomething(qs);
    InterleaveUnfolds(qs);
    assert (taken + Heads(qs)) + Interleave(Tails(qs)) == taken + (Heads(qs) + Interleave(Tails(qs)));
  }

  /** The round-robin order is one round followed by the order of what it leaves, even
      when nothing is queued. */
  lemma InterleaveUnfolds<T>(qs: seq<seq<T>>)
    ensures Interleave(qs) == Heads(qs) + Interleave(Tails(qs))
  {
    RoundShrinks(qs);
    if Flatten(qs) == [] {
      assert Interleave(Tails(qs)) == [];
    }
  }

  /** The draining loop: while some queue still had an element left after its shift,
      go round the queues again. */
  method InterleaveQueues<T>(sourceQueues: seq<seq<T>>) returns (interleaved: seq<T>)
    ensures interleaved == Interleave(sourceQueues)
  {
    var queues := sourceQueues;
    interleaved := [];
    var hasMore := true;
    assert [] + Interleave(queues) == Interleave(sourceQueues);
    while hasMore
      invariant interleaved + Interleave(queues) == Interleave(sourceQueues)
      invariant !hasMore ==> Flatten(queues) == []
      decreases |Flatten(queues)|, hasMore
    {
      ghost var before := queues;
      ghost var taken := interleaved;
      queues, interleaved, hasMore := TakeRound(queues, interleaved);
      RoundStep(before, hasMore, taken);
    }
    assert Interleave(queues) == [];
    assert interleaved + [] == interleaved;
  }

  lemma {:induction false} AllEmptyFlattensEmpty<T>(qs: seq<seq<T>>)
    requires forall j :: 0 <= j < |qs| ==> qs[j] == []
    ensures Flatten(qs) == []
    decreases |qs|
  {
    if qs != [] {
      AllEmptyFlattensEmpty(qs[..|qs| - 1]);
    }
  }
}
