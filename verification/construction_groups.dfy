/** What the construction analyzer computes from its score table: each
    model's completion rate, and the average positive score of each model by
    material count, by room count and by both, read from the task names. */
module ConstructionGroups {
  import opened Py
  import opened Dict
  import opened Logs
  import opened Tallies
  import opened TaskNames
  import opened Table
  import opened ConstructionScores

  // ---------------------------------------------------------------------
  // Completion rates
  // ---------------------------------------------------------------------

  predicate ScoredFor(d: Dict<real>, model: string)
  {
    Get(d, model).Some?
  }

  predicate CompletedFor(d: Dict<real>, model: string)
  {
    Get(d, model).Some? && Get(d, model).value > 0.0
  }

  /** `len(valid_tasks)` and `completed_tasks`: the tasks with a score for
      the model, and those whose score is positive. */
  function CompletionCounts(scores: Dict<Dict<real>>, model: string): (c: Counts)
    ensures c.successful <= c.total
  {
    if |scores| == 0 then Counts(0, 0)
    else
      var c := CompletionCounts(scores[1..], model);
      Counts(c.total + (if ScoredFor(scores[0].1, model) then 1 else 0),
             c.successful + (if CompletedFor(scores[0].1, model) then 1 else 0))
  }

  /** `model_completion_rates[model]` */
  function CompletionRate(scores: Dict<Dict<real>>, model: string): real
  {
    Rate(CompletionCounts(scores, model))
  }

  lemma {:induction false} CompletionCountsMeans(scores: Dict<Dict<real>>, model: string)
    ensures CompletionCounts(scores, model).total > 0 <==> exists i | 0 <= i < |scores| :: ScoredFor(scores[i].1, model)
    ensures CompletionCounts(scores, model).successful > 0 <==> exists i | 0 <= i < |scores| :: CompletedFor(scores[i].1, model)
    ensures CompletionCounts(scores, model).successful == CompletionCounts(scores, model).total <==>
      forall i | 0 <= i < |scores| :: ScoredFor(scores[i].1, model) ==> CompletedFor(scores[i].1, model)
  {
    if |scores| > 0 {
      var rest := scores[1..];
      CompletionCountsMeans(rest, model);
      assert forall i | 0 <= i < |rest| :: rest[i] == scores[i + 1];
      assert forall i | 1 <= i < |scores| :: scores[i] == rest[i - 1];
    }
  }

  /** The completion rate is a fraction: positive exactly when some scored
      task has a positive score, and 1 exactly when there are scored tasks
      and all of them have a positive score. */
  lemma CompletionRateMeans(scores: Dict<Dict<real>>, model: string)
    ensures 0.0 <= CompletionRate(scores, model) <= 1.0
    ensures CompletionRate(scores, model) > 0.0 <==> exists i | 0 <= i < |scores| :: CompletedFor(scores[i].1, model)
    ensures CompletionRate(scores, model) == 1.0 <==>
      && (exists i | 0 <= i < |scores| :: ScoredFor(scores[i].1, model))
      && forall i | 0 <= i < |scores| :: ScoredFor(scores[i].1, model) ==> CompletedFor(scores[i].1, model)
  {
    var c := CompletionCounts(scores, model);
    RateBounds(c);
    CompletionCountsMeans(scores, model);
    if c.total > 0 {
      Fraction(c.successful as real, c.total as real);
    }
  }

  lemma Fraction(s: real, t: real)
    requires t > 0.0
    ensures s / t > 0.0 <==> s > 0.0
    ensures s / t == 1.0 <==> s == t
  {
    assert (s / t) * t == s;
  }

  /** A dictionary filled key by key, `d[k] = f(k)` for each `k` in turn. */
  function StoreEach<V>(ks: seq<string>, f: string -> V): Dict<V>
  {
    if |ks| == 0 then []
    else Store(StoreEach(ks[..|ks| - 1], f), ks[|ks| - 1], f(ks[|ks| - 1]))
  }

  lemma {:induction false} StoreEachGet<V>(ks: seq<string>, f: string -> V, k: string)
    ensures Get(StoreEach(ks, f), k) == if k in ks then Some(f(k)) else None
  {
    if |ks| > 0 {
      var init, last := ks[..|ks| - 1], ks[|ks| - 1];
      StoreEachGet(init, f, k);
      StoreGet(StoreEach(init, f), last, f(last), k);
      InSnoc(init, last, k);
    }
  }

  lemma InSnoc<T>(init: seq<T>, last: T, x: T)
    ensures x in init + [last] <==> x in init || x == last
  {
  }

  /** `model_completion_rates`, filled model by model. */
  function CompletionRates(scores: Dict<Dict<real>>, models: seq<string>): Dict<real>
  {
    StoreEach(models, m => CompletionRate(scores, m))
  }

  /** Every listed model has its rate, and no other name has one. */
  lemma CompletionRatesHold(scores: Dict<Dict<real>>, models: seq<string>, m: string)
    ensures Get(CompletionRates(scores, models), m) == if m in models then Some(CompletionRate(scores, m)) else None
  {
    StoreEachGet(models, m => CompletionRate(scores, m), m);
  }

  // ---------------------------------------------------------------------
  // Groups by material and room
  // ---------------------------------------------------------------------

  /** `material_groups`, `room_groups` or `material_room_groups`: a key, then
      a model, then its list of scores. */
  type Groups = Table<Dict<seq<real>>>

  function DictAt(g: Groups, k: seq<int>): Dict<seq<real>>
  {
    match Find(g, k)
    case None => []
    case Some(d) => d
  }

  function ListAt(g: Groups, k: seq<int>, model: string): seq<real>
  {
    ListIn(DictAt(g, k), model)
  }

  /** `groups[k][model].append(x)`, missing keys and models starting empty. */
  function AddScore(g: Groups, k: seq<int>, model: string, x: real): Groups
  {
    if |g| == 0 then [(k, Append([], model, x))]
    else if g[0].0 == k then [(k, Append(g[0].1, model, x))] + g[1..]
    else [g[0]] + AddScore(g[1..], k, model, x)
  }

  lemma {:induction false} FindAddScore(g: Groups, k: seq<int>, model: string, x: real, k': seq<int>)
    ensures Find(AddScore(g, k, model, x), k') == if k' == k then Some(Append(DictAt(g, k), model, x)) else Find(g, k')
  {
    var r := AddScore(g, k, model, x);
    if |g| > 0 && g[0].0 != k {
      FindAddScore(g[1..], k, model, x, k');
      assert r[1..] == AddScore(g[1..], k, model, x);
    } else if |g| > 0 {
      assert r[1..] == g[1..];
    } else {
      assert r[1..] == [];
    }
  }

  /** After an append, the list of that key and model grows by the score
      and every other list is unchanged. */
  lemma ListAtAddScore(g: Groups, k: seq<int>, model: string, x: real, k': seq<int>, m': string)
    ensures ListAt(AddScore(g, k, model, x), k', m') ==
      if k' == k && m' == model then ListAt(g, k, model) + [x] else ListAt(g, k', m')
  {
    FindAddScore(g, k, model, x, k');
    AppendListIn(DictAt(g, k), model, x, m');
  }

  /** The inner loop over one task's scores: each positive score goes to
      the list of its model under the task's key. */
  function AddModels(g: Groups, k: seq<int>, ms: Dict<real>): Groups
  {
    if |ms| == 0 then g
    else
      var e := ms[|ms| - 1];
      var g' := AddModels(g, k, ms[..|ms| - 1]);
      if e.1 > 0.0 then AddScore(g', k, e.0, e.1) else g'
  }

  /** The outer loop over `all_task_scores.items()`: a task whose name holds
      no material and room counts is passed over. `keyOf` picks the key the
      table is indexed by. */
  function GroupTable(scores: Dict<Dict<real>>, keyOf: ((nat, nat)) -> seq<int>): Groups
  {
    if |scores| == 0 then []
    else
      var e := scores[|scores| - 1];
      var g := GroupTable(scores[..|scores| - 1], keyOf);
      match MaterialsAndRooms(e.0)
      case None => g
      case Some(mr) => AddModels(g, keyOf(mr), e.1)
  }

  function ByMaterial(mr: (nat, nat)): seq<int>
  {
    [mr.0]
  }

  function ByRoom(mr: (nat, nat)): seq<int>
  {
    [mr.1]
  }

  function ByBoth(mr: (nat, nat)): seq<int>
  {
    [mr.0, mr.1]
  }

  /** The positive scores of a model among one task's scores, in order. */
  function PositivesIn(ms: Dict<real>, model: string): (r: seq<real>)
    ensures forall x | x in r :: x > 0.0 && (model, x) in ms
    ensures forall x | (model, x) in ms && x > 0.0 :: x in r
  {
    if |ms| == 0 then []
    else
      var init, e := ms[..|ms| - 1], ms[|ms| - 1];
      assert ms == init + [e];
      PositivesIn(init, model) + (if e.0 == model && e.1 > 0.0 then [e.1] else [])
  }

  /** A task counts towards key `k` when its name holds material and room
      counts that `keyOf` maps to `k`. */
  predicate InGroup(task: string, keyOf: ((nat, nat)) -> seq<int>, k: seq<int>)
  {
    MaterialsAndRooms(task).Some? && keyOf(MaterialsAndRooms(task).value) == k
  }

  /** The positive scores of a model over the tasks of a key, in table
      order. */
  function Positives(scores: Dict<Dict<real>>, keyOf: ((nat, nat)) -> seq<int>, k: seq<int>, model: string): (r: seq<real>)
    ensures forall x | x in r :: x > 0.0 && exists i | 0 <= i < |scores| :: InGroup(scores[i].0, keyOf, k) && (model, x) in scores[i].1
    ensures forall i, x | 0 <= i < |scores| && InGroup(scores[i].0, keyOf, k) && (model, x) in scores[i].1 && x > 0.0 :: x in r
  {
    if |scores| == 0 then []
    else
      var init, e := scores[..|scores| - 1], scores[|scores| - 1];
      assert scores == init + [e];
      var r := Positives(init, keyOf, k, model) + (if InGroup(e.0, keyOf, k) then PositivesIn(e.1, model) else []);
      assert forall i | 0 <= i < |init| :: init[i] == scores[i];
      r
  }

  lemma {:induction false} AddModelsAt(g: Groups, k: seq<int>, ms: Dict<real>, k': seq<int>, m': string)
    ensures ListAt(AddModels(g, k, ms), k', m') == ListAt(g, k', m') + (if k' == k then PositivesIn(ms, m') else [])
  {
    if |ms| > 0 {
      var init, e := ms[..|ms| - 1], ms[|ms| - 1];
      AddModelsAt(g, k, init, k', m');
      if e.1 > 0.0 {
        ListAtAddScore(AddModels(g, k, init), k, e.0, e.1, k', m');
      }
    }
  }

  /** The list of a key and a model holds exactly the model's positive
      scores of the tasks of that key: zero scores and tasks whose names
      hold no material and room counts are left out. */
  lemma {:induction false} GroupTableAt(scores: Dict<Dict<real>>, keyOf: ((nat, nat)) -> seq<int>, k: seq<int>, model: string)
    ensures ListAt(GroupTable(scores, keyOf), k, model) == Positives(scores, keyOf, k, model)
  {
    if |scores| > 0 {
      var init, e := scores[..|scores| - 1], scores[|scores| - 1];
      GroupTableAt(init, keyOf, k, model);
      if MaterialsAndRooms(e.0).Some? {
        AddModelsAt(GroupTable(init, keyOf), keyOf(MaterialsAndRooms(e.0).value), e.1, k, model);
      }
    }
  }

  /** Every model of every key holds a non-empty list of positive scores,
      and every key some model. */
  predicate GoodLists(d: Dict<seq<real>>)
  {
    forall e | e in d :: |e.1| > 0 && forall x | x in e.1 :: x > 0.0
  }

  predicate Filled(g: Groups)
  {
    forall e | e in g :: |e.1| > 0 && GoodLists(e.1)
  }

  lemma AppendGood(d: Dict<seq<real>>, model: string, x: real)
    requires GoodLists(d) && x > 0.0
    ensures GoodLists(Append(d, model, x)) && |Append(d, model, x)| > 0
  {
    var l := ListIn(d, model) + [x];
    StoreMembers(d, model, l);
    assert model in Keys(Append(d, model, x));
  }

  lemma {:induction false} AddScoreFilled(g: Groups, k: seq<int>, model: string, x: real)
    requires Filled(g) && x > 0.0
    ensures Filled(AddScore(g, k, model, x))
  {
    if |g| == 0 {
      AppendGood([], model, x);
    } else if g[0].0 == k {
      assert g[0] in g;
      AppendGood(g[0].1, model, x);
      assert forall e | e in g[1..] :: e in g;
    } else {
      assert forall e | e in g[1..] :: e in g;
      AddScoreFilled(g[1..], k, model, x);
    }
  }

  lemma {:induction false} AddModelsFilled(g: Groups, k: seq<int>, ms: Dict<real>)
    requires Filled(g)
    ensures Filled(AddModels(g, k, ms))
  {
    if |ms| > 0 {
      var e := ms[|ms| - 1];
      AddModelsFilled(g, k, ms[..|ms| - 1]);
      if e.1 > 0.0 {
        AddScoreFilled(AddModels(g, k, ms[..|ms| - 1]), k, e.0, e.1);
      }
    }
  }

  /** The groups hold no empty list, and only positive scores. */
  lemma {:induction false} GroupTableFilled(scores: Dict<Dict<real>>, keyOf: ((nat, nat)) -> seq<int>)
    ensures Filled(GroupTable(scores, keyOf))
  {
    if |scores| > 0 {
      var init, e := scores[..|scores| - 1], scores[|scores| - 1];
      GroupTableFilled(init, keyOf);
      if MaterialsAndRooms(e.0).Some? {
        AddModelsFilled(GroupTable(init, keyOf), keyOf(MaterialsAndRooms(e.0).value), e.1);
      }
    }
  }

  // ---------------------------------------------------------------------
  // Averages
  // ---------------------------------------------------------------------

  function Sum(xs: seq<real>): real
  {
    if |xs| == 0 then 0.0 else Sum(xs[..|xs| - 1]) + xs[|xs| - 1]
  }

  /** `sum(scores) / len(scores)` */
  function Mean(xs: seq<real>): real
    requires |xs| > 0
  {
    Sum(xs) / |xs| as real
  }

  lemma {:induction false} SumBounds(xs: seq<real>, lo: real, hi: real)
    requires forall x | x in xs :: lo <= x <= hi
    ensures |xs| as real * lo <= Sum(xs) <= |xs| as real * hi
  {
    if |xs| > 0 {
      var init := xs[..|xs| - 1];
      assert forall x | x in init :: x in xs;
      SumBounds(init, lo, hi);
      assert xs[|xs| - 1] in xs;
    }
  }

  /** An average lies between the least and the greatest score averaged. */
  lemma MeanBounds(xs: seq<real>, lo: real, hi: real)
    requires |xs| > 0
    requires forall x | x in xs :: lo <= x <= hi
    ensures lo <= Mean(xs) <= hi
  {
    SumBounds(xs, lo, hi);
    Between(Sum(xs), |xs| as real, lo, hi);
  }

  lemma Between(s: real, n: real, lo: real, hi: real)
    requires n > 0.0 && n * lo <= s <= n * hi
    ensures lo <= s / n <= hi
  {
    assert s / n - lo == (s - n * lo) / n;
    assert hi - s / n == (n * hi - s) / n;
  }

  lemma {:induction false} SumPositive(xs: seq<real>)
    requires |xs| > 0 && forall x | x in xs :: x > 0.0
    ensures Sum(xs) > 0.0
  {
    var init := xs[..|xs| - 1];
    assert xs[|xs| - 1] in xs;
    if |init| > 0 {
      assert forall x | x in init :: x in xs;
      SumPositive(init);
    }
  }

  /** The average of positive scores is positive. */
  lemma MeanPositive(xs: seq<real>)
    requires |xs| > 0 && forall x | x in xs :: x > 0.0
    ensures Mean(xs) > 0.0
  {
    SumPositive(xs);
  }

  /** The inner comprehension of `calculate_average`: the average of each
      model's list, for the models whose list is not empty. */
  function AverageModels(d: Dict<seq<real>>): Dict<real>
  {
    if |d| == 0 then []
    else (if |d[0].1| > 0 then [(d[0].0, Mean(d[0].1))] else []) + AverageModels(d[1..])
  }

  /** `calculate_average(group)`: the averages under each key whose
      dictionary is not empty. */
  function Averages(g: Groups): Table<Dict<real>>
  {
    if |g| == 0 then []
    else (if |g[0].1| > 0 then [(g[0].0, AverageModels(g[0].1))] else []) + Averages(g[1..])
  }

  /** Each average is the mean of a non-empty list of the same model, and
      when no list is empty every model keeps its average. */
  lemma {:induction false} AverageModelsMeans(d: Dict<seq<real>>)
    ensures forall a | a in AverageModels(d) :: exists e | e in d :: a.0 == e.0 && |e.1| > 0 && a.1 == Mean(e.1)
    ensures (forall e | e in d :: |e.1| > 0) ==> |AverageModels(d)| == |d|
  {
    if |d| > 0 {
      AverageModelsMeans(d[1..]);
      assert forall e | e in d[1..] :: e in d;
      assert d[0] in d;
    }
  }

  /** Each key's averages come from a non-empty dictionary of the same key,
      and when no dictionary is empty every key keeps its averages. */
  lemma {:induction false} AveragesMeans(g: Groups)
    ensures forall a | a in Averages(g) :: exists e | e in g :: a.0 == e.0 && |e.1| > 0 && a.1 == AverageModels(e.1)
    ensures (forall e | e in g :: |e.1| > 0) ==> |Averages(g)| == |g|
  {
    if |g| > 0 {
      AveragesMeans(g[1..]);
      assert forall e | e in g[1..] :: e in g;
      assert g[0] in g;
    }
  }

  /** Averaging filled groups drops nothing and gives positive averages. */
  lemma FilledAverages(g: Groups)
    requires Filled(g)
    ensures |Averages(g)| == |g|
    ensures forall a, b | a in Averages(g) && b in a.1 :: b.1 > 0.0
  {
    AveragesMeans(g);
    forall a, b | a in Averages(g) && b in a.1 ensures b.1 > 0.0 {
      var e :| e in g && a.0 == e.0 && |e.1| > 0 && a.1 == AverageModels(e.1);
      AverageModelsMeans(e.1);
      var f :| f in e.1 && b.0 == f.0 && |f.1| > 0 && b.1 == Mean(f.1);
      MeanPositive(f.1);
    }
  }

  /** On the groups the loop builds nothing is dropped, and every average
      is positive. */
  lemma AveragesOfGroups(scores: Dict<Dict<real>>, keyOf: ((nat, nat)) -> seq<int>)
    ensures |Averages(GroupTable(scores, keyOf))| == |GroupTable(scores, keyOf)|
    ensures forall a, b | a in Averages(GroupTable(scores, keyOf)) && b in a.1 :: b.1 > 0.0
  {
    GroupTableFilled(scores, keyOf);
    FilledAverages(GroupTable(scores, keyOf));
  }

  // ---------------------------------------------------------------------
  // The whole analysis
  // ---------------------------------------------------------------------

  /** What `extract_success_scores` computes before it prints: the records,
      the completion rates and the three tables of averages. */
  datatype Summary = Summary(
    records: Records,
    rates: Dict<real>,
    byMaterial: Table<Dict<real>>,
    byRoom: Table<Dict<real>>,
    byBoth: Table<Dict<real>>)

  /** `extract_success_scores(folders, model_names)`: the directories and
      the model names must pair up. */
  function ExtractSuccessScores(dirs: seq<seq<Entry>>, models: seq<string>, parse: NumberParser): (r: Outcome<Summary>)
    ensures r.Raises? <==> |dirs| != |models|
    ensures r.Raises? ==> r.error == AssertionError
  {
    if |dirs| != |models| then Raises(AssertionError)
    else Returns(Summarize(Recorded(Visits(dirs, models, parse)), models))
  }

  /** The rates and averages computed from the records. */
  function Summarize(rs: Records, models: seq<string>): Summary
  {
    Summary(rs, CompletionRates(rs.scores, models),
      Averages(GroupTable(rs.scores, ByMaterial)),
      Averages(GroupTable(rs.scores, ByRoom)),
      Averages(GroupTable(rs.scores, ByBoth)))
  }

  /** A summary's rates lie between 0 and 1 and its averages are positive. */
  predicate Bounded(s: Summary, m: string)
  {
    && Get(s.rates, m).Some? && 0.0 <= Get(s.rates, m).value <= 1.0
    && (forall a, b | a in s.byMaterial && b in a.1 :: b.1 > 0.0)
    && (forall a, b | a in s.byRoom && b in a.1 :: b.1 > 0.0)
    && (forall a, b | a in s.byBoth && b in a.1 :: b.1 > 0.0)
  }

  lemma SummarizeBounded(rs: Records, models: seq<string>, m: string)
    requires m in models
    ensures Bounded(Summarize(rs, models), m)
  {
    CompletionRatesHold(rs.scores, models, m);
    CompletionRateMeans(rs.scores, m);
    AveragesOfGroups(rs.scores, ByMaterial);
    AveragesOfGroups(rs.scores, ByRoom);
    AveragesOfGroups(rs.scores, ByBoth);
  }

  /** Every model has a completion rate between 0 and 1, and every average
      is positive. */
  lemma SummaryBounds(dirs: seq<seq<Entry>>, models: seq<string>, parse: NumberParser, m: string)
    requires |dirs| == |models| && m in models
    ensures ExtractSuccessScores(dirs, models, parse).Returns?
    ensures Bounded(ExtractSuccessScores(dirs, models, parse).value, m)
  {
    SummarizeBounded(Recorded(Visits(dirs, models, parse)), models, m);
  }
}
