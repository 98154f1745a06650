/** Python dictionaries keyed by tuples of integers, such as the
    `(m, r, w, c)` difficulty tuples the construction filters group tasks
    by. A tuple key is kept as the sequence of its components; the order of
    the entries is insertion order, as in Python. */
module Table {
  import opened Py
  import opened Sorting

  type Table<V> = seq<(seq<int>, V)>

  /** `t.get(k)` */
  function Find<V>(t: Table<V>, k: seq<int>): (r: Option<V>)
    ensures r.None? <==> forall i | 0 <= i < |t| :: t[i].0 != k
    ensures r.Some? ==> exists i | 0 <= i < |t| :: t[i] == (k, r.value)
  {
    if |t| == 0 then None
    else if t[0].0 == k then
      assert t[0] == (k, t[0].1);
      Some(t[0].1)
    else
      var r := Find(t[1..], k);
      assert forall i | 1 <= i < |t| :: t[i] == t[1..][i - 1];
      r
  }

  /** `list(t.keys())` */
  function KeysOf<V>(t: Table<V>): (ks: seq<seq<int>>)
    ensures |ks| == |t| && forall i | 0 <= i < |t| :: ks[i] == t[i].0
  {
    seq(|t|, i requires 0 <= i < |t| => t[i].0)
  }

  predicate UniqueKeys<V>(t: Table<V>)
  {
    forall i, j | 0 <= i < j < |t| :: t[i].0 != t[j].0
  }

  /** `t[k].append(x)` on a table of lists whose missing keys start empty:
      the list of `k` grows in place, or a new entry goes at the end. */
  function Push<T>(t: Table<seq<T>>, k: seq<int>, x: T): Table<seq<T>>
  {
    if |t| == 0 then [(k, [x])]
    else if t[0].0 == k then [(k, t[0].1 + [x])] + t[1..]
    else [t[0]] + Push(t[1..], k, x)
  }

  /** The list stored under `k`, or the empty list. */
  function ListOf<T>(t: Table<seq<T>>, k: seq<int>): seq<T>
  {
    match Find(t, k)
    case None => []
    case Some(xs) => xs
  }

  /** After an append, `k` holds one more element at its end and every
      other key holds what it held. */
  lemma {:induction false} FindPush<T>(t: Table<seq<T>>, k: seq<int>, x: T, k': seq<int>)
    ensures Find(Push(t, k, x), k') == if k' == k then Some(ListOf(t, k) + [x]) else Find(t, k')
  {
    var r := Push(t, k, x);
    if |t| > 0 && t[0].0 != k {
      FindPush(t[1..], k, x, k');
      assert r[1..] == Push(t[1..], k, x);
    } else if |t| > 0 {
      assert r[0] == (k, t[0].1 + [x]) && r[1..] == t[1..];
      assert Find(t, k) == Some(t[0].1) && ListOf(t, k) == t[0].1;
      if k' != k {
        assert Find(r, k') == Find(t[1..], k') == Find(t, k');
      }
    } else {
      assert r == [(k, [x])] && r[1..] == [] && ListOf(t, k) + [x] == [x];
    }
  }

  /** An append never introduces a second entry for a key. */
  lemma {:induction false} PushUnique<T>(t: Table<seq<T>>, k: seq<int>, x: T)
    requires UniqueKeys(t)
    ensures UniqueKeys(Push(t, k, x))
  {
    var r := Push(t, k, x);
    if |t| > 0 && t[0].0 != k {
      var rest := Push(t[1..], k, x);
      assert UniqueKeys(t[1..]) && Find(t[1..], t[0].0).None? by {
        assert forall j | 0 <= j < |t[1..]| :: t[1..][j] == t[j + 1];
      }
      assert UniqueKeys(rest) by {
        PushUnique(t[1..], k, x);
      }
      assert forall i | 0 <= i < |rest| :: rest[i].0 != t[0].0 by {
        FindPush(t[1..], k, x, t[0].0);
      }
      assert forall i | 1 <= i < |r| :: r[i] == rest[i - 1];
    } else if |t| > 0 {
      assert forall i | 1 <= i < |r| :: r[i] == t[i];
    }
  }

  /** Building a table of lists by appending the elements in order, each
      under its key: the loops that fill `tasks_by_params`. */
  function GroupBy<T>(xs: seq<T>, key: T -> seq<int>): Table<seq<T>>
  {
    if |xs| == 0 then []
    else Push(GroupBy(xs[..|xs| - 1], key), key(xs[|xs| - 1]), xs[|xs| - 1])
  }

  /** Each key holds exactly the elements with that key, in their order, and
      only keys that some element has are present. */
  lemma {:induction false} GroupByFind<T>(xs: seq<T>, key: T -> seq<int>, k: seq<int>)
    ensures Find(GroupBy(xs, key), k) == if WithKey(xs, key, k) == [] then None else Some(WithKey(xs, key, k))
  {
    if |xs| > 0 {
      var init, x := xs[..|xs| - 1], xs[|xs| - 1];
      var g := GroupBy(init, key);
      GroupByFind(init, key, k);
      assert ListOf(g, k) == WithKey(init, key, k);
      FindPush(g, key(x), x, k);
      assert xs == init + [x];
      WithKeySnoc(init, x, key, k);
    }
  }

  lemma {:induction false} GroupByUnique<T>(xs: seq<T>, key: T -> seq<int>)
    ensures UniqueKeys(GroupBy(xs, key))
  {
    if |xs| > 0 {
      GroupByUnique(xs[..|xs| - 1], key);
      PushUnique(GroupBy(xs[..|xs| - 1], key), key(xs[|xs| - 1]), xs[|xs| - 1]);
    }
  }

  /** The elements with a selected key, in their order. */
  function Where<T>(xs: seq<T>, key: T -> seq<int>, sel: seq<int> -> bool): (r: seq<T>)
    ensures forall y | y in r :: y in xs && sel(key(y))
  {
    if |xs| == 0 then []
    else
      var init, x := xs[..|xs| - 1], xs[|xs| - 1];
      var r := Where(init, key, sel) + (if sel(key(x)) then [x] else []);
      assert forall y | y in init :: y in xs;
      r
  }

  /** The lists of the selected keys, one after another in table order: the
      `candidates.extend(tasks)` loop. */
  function Gather<T>(t: Table<seq<T>>, sel: seq<int> -> bool): seq<T>
  {
    if |t| == 0 then []
    else (if sel(t[0].0) then t[0].1 else []) + Gather(t[1..], sel)
  }

  lemma {:induction false} GatherPush<T>(t: Table<seq<T>>, k: seq<int>, x: T, sel: seq<int> -> bool)
    ensures multiset(Gather(Push(t, k, x), sel)) == multiset(Gather(t, sel)) + if sel(k) then multiset{x} else multiset{}
  {
    var r := Push(t, k, x);
    if |t| == 0 {
      assert Gather(r, sel) == (if sel(k) then [x] else []) + Gather([], sel);
    } else if t[0].0 != k {
      GatherPush(t[1..], k, x, sel);
      assert r[0] == t[0] && r[1..] == Push(t[1..], k, x);
    } else {
      assert r[0].1 == t[0].1 + [x] && r[1..] == t[1..];
    }
  }

  /** Gathering the groups of some keys collects exactly the elements with
      those keys, each as often as it occurs. */
  lemma {:induction false} GatherGroupBy<T>(xs: seq<T>, key: T -> seq<int>, sel: seq<int> -> bool)
    ensures multiset(Gather(GroupBy(xs, key), sel)) == multiset(Where(xs, key, sel))
  {
    if |xs| > 0 {
      var init, x := xs[..|xs| - 1], xs[|xs| - 1];
      GatherGroupBy(init, key, sel);
      GatherPush(GroupBy(init, key), key(x), x, sel);
    }
  }

  lemma {:induction false} WhereMultiset<T>(xs: seq<T>, key: T -> seq<int>, sel: seq<int> -> bool)
    ensures multiset(Where(xs, key, sel)) <= multiset(xs)
  {
    if |xs| > 0 {
      var init, x := xs[..|xs| - 1], xs[|xs| - 1];
      WhereMultiset(init, key, sel);
      assert xs == init + [x];
    }
  }

  /** What the candidates loop gathers from a grouping of `xs`: elements of
      `xs`, with a selected key, none more often than in `xs`. */
  lemma GatherMembers<T>(xs: seq<T>, key: T -> seq<int>, sel: seq<int> -> bool)
    ensures multiset(Gather(GroupBy(xs, key), sel)) <= multiset(xs)
    ensures forall y | y in Gather(GroupBy(xs, key), sel) :: y in xs && sel(key(y))
  {
    var g := Gather(GroupBy(xs, key), sel);
    GatherGroupBy(xs, key, sel);
    WhereMultiset(xs, key, sel);
    forall y | y in g ensures y in Where(xs, key, sel) {
      assert y in multiset(g);
    }
  }

  /** `counts[k] += 1` on a table of counters whose missing keys start at 0. */
  function Bump(t: Table<nat>, k: seq<int>): Table<nat>
  {
    if |t| == 0 then [(k, 1)]
    else if t[0].0 == k then [(k, t[0].1 + 1)] + t[1..]
    else [t[0]] + Bump(t[1..], k)
  }

  /** `sum(t.values())` */
  function Total(t: Table<nat>): nat
  {
    if |t| == 0 then 0 else t[0].1 + Total(t[1..])
  }

  lemma {:induction false} BumpTotal(t: Table<nat>, k: seq<int>)
    ensures Total(Bump(t, k)) == Total(t) + 1
  {
    if |t| > 0 && t[0].0 != k {
      BumpTotal(t[1..], k);
    }
  }
}
