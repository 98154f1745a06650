/** `filter_training_tasks.py`: the first five hundred kept tasks of a
    construction task file in ascending difficulty tuple, shuffled. */
module TrainingTasks {
  import opened Dict
  import opened Sorting
  import opened Table
  import opened Choice
  import opened ConstructionTasks

  /** How many tasks the selection loop collects at most. */
  const Limit: nat := 500

  /** A difficulty tuple is its own sort key. */
  function Tuple(k: seq<int>): seq<int>
  {
    k
  }

  /** `sorted(tasks_by_params.keys())` */
  function SortedKeys(g: Table<seq<Entry>>): seq<seq<int>>
  {
    SortBy(KeysOf(g), Tuple)
  }

  /** `sampled_tasks`, `total_selected` and `sampled_task_counts`. */
  datatype State = State(picked: Dict<Task>, total: nat, counts: Table<nat>)

  /** The inner loop over the candidates of the tuple `key`. */
  function TakeGroup(key: seq<int>, cands: seq<Entry>, st: State): State
    decreases |cands|
  {
    if |cands| == 0 then st
    else if st.total < Limit then
      TakeGroup(key, cands[1..], State(Store(st.picked, cands[0].0, cands[0].1), st.total + 1, Bump(st.counts, key)))
    else st
  }

  /** The outer loop over the sorted tuples. */
  function TakeKeys(keys: seq<seq<int>>, g: Table<seq<Entry>>, st: State): State
    decreases |keys|
  {
    if |keys| == 0 then st
    else if st.total >= Limit then st
    else TakeKeys(keys[1..], g, TakeGroup(keys[0], ListOf(g, keys[0]), st))
  }

  /** The state after the selection loops. */
  function Selected(data: Dict<Task>): State
  {
    TakeKeys(SortedKeys(Groups(data)), Groups(data), State([], 0, []))
  }

  /** `filter_and_sample_tasks`: the dictionary it writes, the selected
      tasks after `random.shuffle` with the random numbers `draws`. */
  function FilterAndSample(data: Dict<Task>, draws: seq<nat>): Dict<Task>
  {
    Shuffle(Selected(data).picked, draws)
  }

  /** The kept tasks stably sorted by difficulty tuple. */
  function ByTuple(data: Dict<Task>): (f: seq<Entry>)
    ensures multiset(f) == multiset(Eligible(data))
    ensures |f| == |Eligible(data)|
  {
    SortPermutes(Eligible(data), Key);
    assert |SortBy(Eligible(data), Key)| == |multiset(SortBy(Eligible(data), Key))|;
    SortBy(Eligible(data), Key)
  }

  /** The tasks in the order the loops visit them: the list of each tuple
      in turn. */
  function Flatten(keys: seq<seq<int>>, g: Table<seq<Entry>>): seq<Entry>
  {
    if |keys| == 0 then [] else ListOf(g, keys[0]) + Flatten(keys[1..], g)
  }

  // ---------------------------------------------------------------------
  // The loops take a prefix of the visiting order
  // ---------------------------------------------------------------------

  /** The first task of `b` has a name new to `a` when all names of
      `a + b` differ. */
  lemma FreshHead(a: Dict<Task>, b: seq<Entry>)
    requires |b| > 0 && DistinctBy(a + b, Name)
    ensures b[0].0 !in Keys(a)
  {
    forall q | 0 <= q < |a| ensures a[q].0 != b[0].0 {
      assert (a + b)[q] == a[q] && (a + b)[|a|] == b[0];
    }
  }

  lemma TakeShift<T>(a: seq<T>, b: seq<T>, m: nat)
    requires 1 <= m <= |b|
    ensures (a + [b[0]]) + b[1..][..m - 1] == a + b[..m]
  {
    assert b[..m] == [b[0]] + b[1..][..m - 1];
  }

  /** The inner loop appends candidates until the limit is reached. */
  lemma {:induction false} TakeGroupAppend(key: seq<int>, cands: seq<Entry>, st: State)
    requires |st.picked| == st.total <= Limit
    requires DistinctBy(st.picked + cands, Name)
    ensures TakeGroup(key, cands, st).picked == st.picked + cands[..Min(|cands|, Limit - st.total)]
    ensures TakeGroup(key, cands, st).total == st.total + Min(|cands|, Limit - st.total)
    decreases |cands|
  {
    if |cands| > 0 && st.total < Limit {
      FreshHead(st.picked, cands);
      StoreFresh(st.picked, cands[0].0, cands[0].1);
      var next := State(st.picked + [cands[0]], st.total + 1, Bump(st.counts, key));
      ShiftHead(st.picked, cands);
      TakeGroupAppend(key, cands[1..], next);
      TakeShift(st.picked, cands, Min(|cands|, Limit - st.total));
    }
  }

  lemma ConcatPrefix<T>(p: seq<T>, l: seq<T>, f: seq<T>, m: nat)
    requires m <= |f|
    ensures (p + l) + f[..m] == p + (l + f)[..|l| + m]
  {
    assert (l + f)[..|l| + m] == l + f[..m];
  }

  lemma PrefixWithin<T>(l: seq<T>, f: seq<T>, m: nat)
    requires m <= |l|
    ensures (l + f)[..m] == l[..m]
  {
  }

  /** The outer loop takes the first tasks of the visiting order, up to
      the limit. */
  lemma {:induction false} TakeKeysAppend(keys: seq<seq<int>>, g: Table<seq<Entry>>, st: State)
    requires |st.picked| == st.total <= Limit
    requires DistinctBy(st.picked + Flatten(keys, g), Name)
    ensures TakeKeys(keys, g, st).picked ==
      st.picked + Flatten(keys, g)[..Min(|Flatten(keys, g)|, Limit - st.total)]
    ensures |TakeKeys(keys, g, st).picked| == TakeKeys(keys, g, st).total
    decreases |keys|
  {
    if |keys| > 0 && st.total < Limit {
      var p, l, f := st.picked, ListOf(g, keys[0]), Flatten(keys[1..], g);
      assert Flatten(keys, g) == l + f;
      Associate(p, l, f);
      assert DistinctBy(p + l, Name) by {
        DistinctPrefix(p + l + f, |p + l|, Name);
        assert (p + l + f)[..|p + l|] == p + l;
      }
      TakeGroupAppend(keys[0], l, st);
      var a := Min(|l|, Limit - st.total);
      var next := TakeGroup(keys[0], l, st);
      if a == |l| {
        assert l[..a] == l;
        TakeKeysAppend(keys[1..], g, next);
        ConcatPrefix(p, l, f, Min(|f|, Limit - next.total));
      } else {
        PrefixWithin(l, f, a);
        assert TakeKeys(keys, g, st) == next;
      }
    }
  }

  // ---------------------------------------------------------------------
  // The visiting order is the stable sort by tuple
  // ---------------------------------------------------------------------

  /** Grouping the visiting order by tuple gives back the kept tasks of each
      tuple, in file order, for the tuples visited. */
  lemma {:induction false} FlattenWithKey(data: Dict<Task>, keys: seq<seq<int>>, k: seq<int>)
    requires DistinctBy(keys, Tuple)
    ensures WithKey(Flatten(keys, Groups(data)), Key, k) == if k in keys then WithKey(Eligible(data), Key, k) else []
  {
    if |keys| > 0 {
      var g, v := Groups(data), Eligible(data);
      var l, f := ListOf(g, keys[0]), Flatten(keys[1..], g);
      GroupList(data, keys[0]);
      WithKeyAppend(l, f, Key, k);
      WithKeyOfWithKey(v, Key, keys[0], k);
      Choice.DistinctTail(keys, Tuple);
      FlattenWithKey(data, keys[1..], k);
      assert k in keys <==> k == keys[0] || k in keys[1..];
    }
  }

  /** Every task visited is a kept task whose tuple is one of those visited. */
  lemma {:induction false} FlattenMembers(data: Dict<Task>, keys: seq<seq<int>>)
    ensures forall x | x in Flatten(keys, Groups(data)) :: x in Eligible(data) && Key(x) in keys
  {
    if |keys| > 0 {
      GroupList(data, keys[0]);
      FlattenMembers(data, keys[1..]);
    }
  }

  /** Visiting the tuples in ascending order visits the tasks in ascending
      tuple. */
  lemma {:induction false} FlattenSorted(data: Dict<Task>, keys: seq<seq<int>>)
    requires Sorted(keys, Tuple)
    ensures Sorted(Flatten(keys, Groups(data)), Key)
  {
    if |keys| > 0 {
      var g := Groups(data);
      var l, f := ListOf(g, keys[0]), Flatten(keys[1..], g);
      GroupList(data, keys[0]);
      SameKeySorted(l, Key, keys[0]);
      SortedTail(keys, Tuple);
      FlattenSorted(data, keys[1..]);
      FlattenMembers(data, keys[1..]);
      forall x, y | x in l && y in f ensures LexLeq(Key(x), Key(y)) {
        SortedHeadLeast(keys, Tuple, Key(y));
      }
      SortedConcat(l, f, Key);
    }
  }

  /** The sorted tuples are exactly the tuples of the table, each once. */
  lemma SortedKeysFacts(data: Dict<Task>)
    ensures Sorted(SortedKeys(Groups(data)), Tuple)
    ensures DistinctBy(SortedKeys(Groups(data)), Tuple)
    ensures forall k | k !in SortedKeys(Groups(data)) :: WithKey(Eligible(data), Key, k) == []
  {
    var g, v := Groups(data), Eligible(data);
    var ks := KeysOf(g);
    var keys := SortedKeys(g);
    SortSorted(ks, Tuple);
    SortPermutes(ks, Tuple);
    GroupByUnique(v, Key);
    assert DistinctBy(ks, Tuple);
    SubDistinct(keys, ks, Tuple);
    SubMembers(ks, keys);
    forall k | k !in keys ensures WithKey(v, Key, k) == [] {
      assert k !in ks;
      GroupByFind(v, Key, k);
    }
  }

  /** The loops visit the kept tasks in the order of a stable sort by
      difficulty tuple. */
  lemma FlattenIsSort(data: Dict<Task>)
    ensures Flatten(SortedKeys(Groups(data)), Groups(data)) == ByTuple(data)
  {
    var g, v := Groups(data), Eligible(data);
    var keys := SortedKeys(g);
    var f := Flatten(keys, g);
    SortedKeysFacts(data);
    forall k ensures WithKey(f, Key, k) == WithKey(SortBy(v, Key), Key, k) {
      FlattenWithKey(data, keys, k);
      SortStable(v, Key, k);
    }
    FlattenSorted(data, keys);
    SortSorted(v, Key);
    SortedByGroups(f, SortBy(v, Key), Key);
  }

  // ---------------------------------------------------------------------
  // What the filter writes
  // ---------------------------------------------------------------------

  /** The selection is the first five hundred kept tasks, or all of them,
      in ascending difficulty tuple, ties in file order. */
  lemma SelectedIsPrefix(data: Dict<Task>)
    requires DistinctKeys(data)
    ensures Selected(data).picked == ByTuple(data)[..Min(|Eligible(data)|, Limit)]
    ensures Selected(data).total == Min(|Eligible(data)|, Limit)
  {
    var g, v := Groups(data), Eligible(data);
    var f := ByTuple(data);
    FlattenIsSort(data);
    EligibleDistinct(data);
    SubDistinct(f, v, Name);
    assert [] + f == f;
    TakeKeysAppend(SortedKeys(g), g, State([], 0, []));
  }

  /** Each task the inner loop takes bumps the counter of its tuple, so the
      counters sum to the number of tasks taken. */
  lemma {:induction false} TakeGroupCounts(key: seq<int>, cands: seq<Entry>, st: State)
    requires Total(st.counts) == st.total
    ensures Total(TakeGroup(key, cands, st).counts) == TakeGroup(key, cands, st).total
    decreases |cands|
  {
    if |cands| > 0 && st.total < Limit {
      BumpTotal(st.counts, key);
      TakeGroupCounts(key, cands[1..], State(Store(st.picked, cands[0].0, cands[0].1), st.total + 1, Bump(st.counts, key)));
    }
  }

  lemma {:induction false} TakeKeysCounts(keys: seq<seq<int>>, g: Table<seq<Entry>>, st: State)
    requires Total(st.counts) == st.total
    ensures Total(TakeKeys(keys, g, st).counts) == TakeKeys(keys, g, st).total
    decreases |keys|
  {
    if |keys| > 0 && st.total < Limit {
      TakeGroupCounts(keys[0], ListOf(g, keys[0]), st);
      TakeKeysCounts(keys[1..], g, TakeGroup(keys[0], ListOf(g, keys[0]), st));
    }
  }

  /** The per-tuple counts sum to the number of tasks selected:
      `min(500, kept)` when the file's names are distinct. */
  lemma SelectedCounts(data: Dict<Task>)
    ensures Total(Selected(data).counts) == Selected(data).total
    ensures DistinctKeys(data) ==> Total(Selected(data).counts) == Min(|Eligible(data)|, Limit)
  {
    TakeKeysCounts(SortedKeys(Groups(data)), Groups(data), State([], 0, []));
    if DistinctKeys(data) {
      SelectedIsPrefix(data);
    }
  }

  /** No kept task left out has a smaller tuple than a selected one. */
  lemma SelectedLowest(data: Dict<Task>)
    requires DistinctKeys(data)
    ensures forall e, s | e in Eligible(data) && e !in Selected(data).picked && s in Selected(data).picked ::
      LexLeq(Key(s), Key(e))
  {
    var v, f := Eligible(data), ByTuple(data);
    var n := Min(|v|, Limit);
    SelectedIsPrefix(data);
    SortSorted(v, Key);
    SubMembers(v, f);
    forall e, s | e in v && e !in f[..n] && s in f[..n] ensures LexLeq(Key(s), Key(e)) {
      SortedPrefixLowest(f, n, Key, s, e);
    }
  }

  /** The written dictionary holds the selected tasks, each once, in an order
      the shuffle chose. */
  lemma FilterAndSampleHolds(data: Dict<Task>, draws: seq<nat>)
    requires DistinctKeys(data)
    ensures multiset(FilterAndSample(data, draws)) == multiset(ByTuple(data)[..Min(|Eligible(data)|, Limit)])
    ensures |FilterAndSample(data, draws)| == Min(|Eligible(data)|, Limit)
    ensures DistinctKeys(FilterAndSample(data, draws))
  {
    var v, f := Eligible(data), ByTuple(data);
    var sel := Selected(data).picked;
    SelectedIsPrefix(data);
    ShuffleMultiset(sel, draws);
    PrefixMultiset(f, Min(|v|, Limit));
    EligibleDistinct(data);
    SubDistinct(sel, v, Name);
    SampleDistinct(sel, |sel|, draws, Name);
    DistinctNamesKeys(FilterAndSample(data, draws));
  }
}
