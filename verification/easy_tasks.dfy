/** `filter_easy_tasks.py`: the thirty easiest tasks of a construction task
    file, and a sample of easy tasks spread over the material and room
    counts. */
module EasyTasks {
  import opened Py
  import opened Dict
  import opened Sorting
  import opened Table
  import opened Choice
  import opened ConstructionTasks

  // ---------------------------------------------------------------------
  // process_json
  // ---------------------------------------------------------------------

  /** The sort key of `process_json`: the difficulty score alone. */
  function ScoreKey(e: Entry): seq<int>
  {
    [DifficultyScore(e.0)]
  }

  /** `task_difficulties` after its stable sort by score. */
  function Ranked(data: Dict<Task>): seq<Entry>
  {
    SortBy(Eligible(data), ScoreKey)
  }

  /** `num_tasks_to_select` */
  function SelectCount(data: Dict<Task>): nat
  {
    Min(30, |Eligible(data)|)
  }

  /** `easiest_tasks`: the first tasks of the ranking. */
  function Easiest(data: Dict<Task>): (e: Dict<Task>)
    ensures |e| == SelectCount(data)
  {
    SortPermutes(Eligible(data), ScoreKey);
    assert |Ranked(data)| == |multiset(Ranked(data))| == |Eligible(data)|;
    Ranked(data)[..SelectCount(data)]
  }

  /** What `process_json` reports and writes: the number of tasks, how many
      were filtered out and how many remain, and the easiest tasks. */
  datatype Selection = Selection(total: nat, filteredOut: nat, remaining: nat, easiest: Dict<Task>)

  /** `process_json`. When no task has three levels, the statistics of the
      selected scores take the mean of an empty list, which raises
      `statistics.StatisticsError` (a `ValueError`) before anything is
      written. */
  function ProcessJson(data: Dict<Task>): (r: Outcome<Selection>)
    ensures r.Raises? <==> forall e | e in data :: e.1.levels < 3
    ensures r.Raises? ==> r.error == ValueError
    ensures r.Returns? ==> r.value.filteredOut + r.value.remaining == r.value.total == |data|
    ensures r.Returns? ==> |r.value.easiest| == Min(30, r.value.remaining) > 0
  {
    FilteredOutCount(data);
    var v := Eligible(data);
    if |v| == 0 then Raises(ValueError)
    else
      assert v[0] in v;
      Returns(Selection(|data|, FilteredOut(data), |v|, Easiest(data)))
  }

  /** The ranking is a rearrangement of the kept tasks... */
  lemma RankedPermutes(data: Dict<Task>)
    ensures multiset(Ranked(data)) == multiset(Eligible(data))
    ensures |Ranked(data)| == |Eligible(data)|
  {
    SortPermutes(Eligible(data), ScoreKey);
    assert |Ranked(data)| == |multiset(Ranked(data))|;
  }

  /** ... in ascending score. */
  lemma RankedAscending(data: Dict<Task>)
    ensures forall i, j | 0 <= i < j < |Ranked(data)| ::
      DifficultyScore(Ranked(data)[i].0) <= DifficultyScore(Ranked(data)[j].0)
  {
    var r := Ranked(data);
    SortSorted(Eligible(data), ScoreKey);
    forall i, j | 0 <= i < j < |r| ensures DifficultyScore(r[i].0) <= DifficultyScore(r[j].0) {
      LexSingleton(DifficultyScore(r[i].0), DifficultyScore(r[j].0));
    }
  }

  /** The selected tasks are tasks of the file with at least three levels. */
  lemma EasiestMembers(data: Dict<Task>)
    ensures multiset(Easiest(data)) <= multiset(Eligible(data))
    ensures forall e | e in Easiest(data) :: e in data && e.1.levels >= 3
  {
    RankedPermutes(data);
    PrefixMultiset(Ranked(data), SelectCount(data));
    SubMembers(Easiest(data), Eligible(data));
  }

  /** The selected tasks come in ascending score. */
  lemma EasiestAscending(data: Dict<Task>)
    ensures forall i, j | 0 <= i < j < |Easiest(data)| ::
      DifficultyScore(Easiest(data)[i].0) <= DifficultyScore(Easiest(data)[j].0)
  {
    var r, es := Ranked(data), Easiest(data);
    RankedPermutes(data);
    RankedAscending(data);
    assert forall t | 0 <= t < |es| :: es[t] == r[t];
  }

  /** Every kept task left out scores at least as much as every task
      selected. */
  lemma EasiestAreEasiest(data: Dict<Task>)
    ensures forall e, s | e in Eligible(data) && e !in Easiest(data) && s in Easiest(data) ::
      DifficultyScore(s.0) <= DifficultyScore(e.0)
  {
    var v, r, n := Eligible(data), Ranked(data), SelectCount(data);
    var es := Easiest(data);
    RankedPermutes(data);
    RankedAscending(data);
    SubMembers(v, r);
    forall e, s | e in v && e !in es && s in es ensures DifficultyScore(s.0) <= DifficultyScore(e.0) {
      BeyondPrefix(r, n, e);
      var q :| n <= q < |r| && r[q] == e;
      var p :| 0 <= p < n && es[p] == s;
      assert r[p] == s;
    }
  }

  /** Tasks of equal score keep their order in the file. */
  lemma RankedStable(data: Dict<Task>, score: int)
    ensures WithKey(Ranked(data), ScoreKey, [score]) == WithKey(Eligible(data), ScoreKey, [score])
  {
    SortStable(Eligible(data), ScoreKey, [score]);
  }

  /** The written dictionary has one entry per selected task. */
  lemma EasiestDistinct(data: Dict<Task>)
    requires DistinctKeys(data)
    ensures DistinctKeys(Easiest(data))
  {
    EligibleDistinct(data);
    EasiestMembers(data);
    SubDistinct(Easiest(data), Eligible(data), Name);
    DistinctNamesKeys(Easiest(data));
  }

  // ---------------------------------------------------------------------
  // sample_tasks_with_distribution
  // ---------------------------------------------------------------------

  /** The cell of the i-th pass of the nested loops over `m` and `r`
      (`m = i / 3`, `r = i % 3`): tuples with that material and room count
      and window and carpet counts at most 1. */
  function InCell(i: nat): seq<int> -> bool
  {
    k => |k| == 4 && k[0] == i / 3 && k[1] == i % 3 && k[2] <= 1 && k[3] <= 1
  }

  /** The position of a tuple's cell in the loop order. */
  function CellIndex(k: seq<int>): int
    requires |k| >= 2
  {
    3 * k[0] + k[1]
  }

  /** `candidates` of the i-th cell. */
  function Candidates(g: Table<seq<Entry>>, i: nat): seq<Entry>
  {
    Gather(g, InCell(i))
  }

  /** `random.sample(xs, k)` when there are at least `k`, all of them
      otherwise. */
  function Pick(xs: seq<Entry>, k: nat, draws: seq<nat>): (r: seq<Entry>)
    ensures |r| == Min(k, |xs|)
    ensures multiset(r) <= multiset(xs)
  {
    if |xs| >= k then
      SampleMultiset(xs, k, draws);
      Sample(xs, k, draws)
    else xs
  }

  /** The loops of the first phase: each task added unless its name was
      sampled already. `already_sampled` always holds exactly the keys of
      `sampled_tasks`, since every name goes into both together, so it is
      not kept apart. */
  function AddFresh(picked: Dict<Task>, es: seq<Entry>): (r: Dict<Task>)
    ensures DistinctKeys(picked) ==> DistinctKeys(r)
    decreases |es|
  {
    if |es| == 0 then picked
    else AddFresh(if es[0].0 in Keys(picked) then picked else Store(picked, es[0].0, es[0].1), es[1..])
  }

  /** The loops of the extra samples: each task added with no check. */
  function AddAll(picked: Dict<Task>, es: seq<Entry>): (r: Dict<Task>)
    ensures DistinctKeys(picked) ==> DistinctKeys(r)
    decreases |es|
  {
    if |es| == 0 then picked else AddAll(Store(picked, es[0].0, es[0].1), es[1..])
  }

  /** The nested loops from the i-th cell on; the i-th sample is drawn with
      `draws(i)`. */
  function Cells(g: Table<seq<Entry>>, i: nat, draws: nat -> seq<nat>, picked: Dict<Task>): (r: Dict<Task>)
    ensures DistinctKeys(picked) ==> DistinctKeys(r)
    decreases 9 - i
  {
    if i >= 9 then picked
    else Cells(g, i + 1, draws, AddFresh(picked, Pick(Candidates(g, i), 3, draws(i))))
  }

  /** The tasks of a list whose names have not been sampled yet. */
  function Unsampled(es: seq<Entry>, picked: Dict<Task>): (r: seq<Entry>)
    ensures multiset(r) <= multiset(es)
    ensures forall e | e in r :: e.0 !in Keys(picked)
  {
    if |es| == 0 then []
    else
      assert es == [es[0]] + es[1..];
      (if es[0].0 in Keys(picked) then [] else [es[0]]) + Unsampled(es[1..], picked)
  }

  const AllZero: seq<int> := [0, 0, 0, 0]
  const OneMaterial: seq<int> := [1, 0, 0, 0]

  /** The state after the nine cells; the eleven `random.sample` calls draw
      with `draws(0)` to `draws(10)`. */
  function AfterCells(data: Dict<Task>, draws: nat -> seq<nat>): Dict<Task>
  {
    Cells(Groups(data), 0, draws, [])
  }

  /** The `(0, 0, 0, 0)` tasks not sampled in the cells. */
  function ZerosLeft(data: Dict<Task>, draws: nat -> seq<nat>): seq<Entry>
  {
    Unsampled(ListOf(Groups(data), AllZero), AfterCells(data, draws))
  }

  function AfterZeros(data: Dict<Task>, draws: nat -> seq<nat>): Dict<Task>
  {
    AddAll(AfterCells(data, draws), Pick(ZerosLeft(data, draws), 2, draws(9)))
  }

  /** The `(1, 0, 0, 0)` tasks sampled neither in the cells nor as extras. */
  function OnesLeft(data: Dict<Task>, draws: nat -> seq<nat>): seq<Entry>
  {
    Unsampled(ListOf(Groups(data), OneMaterial), AfterZeros(data, draws))
  }

  /** `sample_tasks_with_distribution`: the dictionary it writes. */
  function Distribution(data: Dict<Task>, draws: nat -> seq<nat>): (r: Dict<Task>)
    ensures DistinctKeys(r)
  {
    AddAll(AfterZeros(data, draws), Pick(OnesLeft(data, draws), 1, draws(10)))
  }

  /** The samples of the cells from the i-th on, one after another. */
  function CellSamples(g: Table<seq<Entry>>, i: nat, draws: nat -> seq<nat>): (r: seq<Entry>)
    ensures i <= 9 ==> |r| <= 3 * (9 - i)
    decreases 9 - i
  {
    if i >= 9 then [] else Pick(Candidates(g, i), 3, draws(i)) + CellSamples(g, i + 1, draws)
  }

  /** A tuple of an easy task: at most two materials and rooms, at most one
      window and carpet. */
  predicate Easy(k: seq<int>)
  {
    |k| == 4 && 0 <= k[0] <= 2 && 0 <= k[1] <= 2 && k[2] <= 1 && k[3] <= 1
  }

  /** Adding tasks with new, distinct names appends them. */
  lemma {:induction false} AddFreshAppend(picked: Dict<Task>, es: seq<Entry>)
    requires DistinctBy(es, Name)
    requires forall e | e in es :: e.0 !in Keys(picked)
    ensures AddFresh(picked, es) == picked + es
    decreases |es|
  {
    if |es| > 0 {
      var next := Store(picked, es[0].0, es[0].1);
      StoreFresh(picked, es[0].0, es[0].1);
      Choice.DistinctTail(es, Name);
      assert forall e | e in es[1..] :: e in es;
      AddFreshAppend(next, es[1..]);
      ShiftHead(picked, es);
    }
  }

  lemma {:induction false} AddAllAppend(picked: Dict<Task>, es: seq<Entry>)
    requires DistinctBy(es, Name)
    requires forall e | e in es :: e.0 !in Keys(picked)
    ensures AddAll(picked, es) == picked + es
    decreases |es|
  {
    if |es| > 0 {
      var next := Store(picked, es[0].0, es[0].1);
      StoreFresh(picked, es[0].0, es[0].1);
      Choice.DistinctTail(es, Name);
      assert forall e | e in es[1..] :: e in es;
      AddAllAppend(next, es[1..]);
      ShiftHead(picked, es);
    }
  }

  /** Whatever the names, the result holds only tasks that were there or
      were added. */
  lemma {:induction false} AddFreshMembers(picked: Dict<Task>, es: seq<Entry>)
    ensures forall e | e in AddFresh(picked, es) :: e in picked || e in es
    decreases |es|
  {
    if |es| > 0 {
      var next := if es[0].0 in Keys(picked) then picked else Store(picked, es[0].0, es[0].1);
      StoreMembers(picked, es[0].0, es[0].1);
      AddFreshMembers(next, es[1..]);
    }
  }

  lemma {:induction false} AddAllMembers(picked: Dict<Task>, es: seq<Entry>)
    ensures forall e | e in AddAll(picked, es) :: e in picked || e in es
    decreases |es|
  {
    if |es| > 0 {
      StoreMembers(picked, es[0].0, es[0].1);
      AddAllMembers(Store(picked, es[0].0, es[0].1), es[1..]);
    }
  }

  /** The sample of the i-th cell: kept tasks of that cell, with distinct
      names when the file's names are distinct. */
  lemma CellSample(data: Dict<Task>, i: nat, draws: seq<nat>)
    ensures forall e | e in Pick(Candidates(Groups(data), i), 3, draws) ::
      e in Eligible(data) && InCell(i)(Key(e))
    ensures DistinctKeys(data) ==> DistinctBy(Pick(Candidates(Groups(data), i), 3, draws), Name)
  {
    var v := Eligible(data);
    var cands := Candidates(Groups(data), i);
    var p := Pick(cands, 3, draws);
    GatherMembers(v, Key, InCell(i));
    forall e | e in p ensures e in cands {
      assert e in multiset(p);
    }
    if DistinctKeys(data) {
      EligibleDistinct(data);
      SubDistinct(p, v, Name);
    }
  }

  lemma CellIndexOf(i: nat, k: seq<int>)
    requires InCell(i)(k)
    ensures CellIndex(k) == i
  {
  }

  /** Tasks of a later cell than every sampled task have new names: a
      task's tuple is read from its name. */
  lemma NewCellFresh(picked: Dict<Task>, es: seq<Entry>, i: int)
    requires forall e | e in picked :: CellIndex(Key(e)) < i
    requires forall e | e in es :: CellIndex(Key(e)) == i
    ensures forall e | e in es :: e.0 !in Keys(picked)
  {
    forall e | e in es ensures e.0 !in Keys(picked) {
      forall q | 0 <= q < |picked| ensures picked[q].0 != e.0 {
        assert picked[q] in picked;
      }
    }
  }

  /** One pass of the nested loops. */
  lemma CellsStep(g: Table<seq<Entry>>, i: nat, draws: nat -> seq<nat>, picked: Dict<Task>)
    requires i < 9
    ensures Cells(g, i, draws, picked) == Cells(g, i + 1, draws, AddFresh(picked, Pick(Candidates(g, i), 3, draws(i))))
    ensures CellSamples(g, i, draws) == Pick(Candidates(g, i), 3, draws(i)) + CellSamples(g, i + 1, draws)
  {
  }

  /** The cells from the i-th on append their samples in loop order: since
      no two cells share a tuple, a name sampled in one cell is never met
      again, and the `already_sampled` check never skips a task. */
  lemma {:induction false} CellsAppend(data: Dict<Task>, i: nat, draws: nat -> seq<nat>, picked: Dict<Task>)
    requires DistinctKeys(data) && i <= 9
    requires forall e | e in picked :: CellIndex(Key(e)) < i
    ensures Cells(Groups(data), i, draws, picked) == picked + CellSamples(Groups(data), i, draws)
    decreases 9 - i
  {
    if i < 9 {
      var g := Groups(data);
      var p := Pick(Candidates(g, i), 3, draws(i));
      CellSample(data, i, draws(i));
      forall e | e in p ensures CellIndex(Key(e)) == i {
        CellIndexOf(i, Key(e));
      }
      NewCellFresh(picked, p, i);
      AddFreshAppend(picked, p);
      CellsStep(g, i, draws, picked);
      CellsAppend(data, i + 1, draws, picked + p);
      Associate(picked, p, CellSamples(g, i + 1, draws));
    }
  }

  /** The samples of the cells from the i-th on are kept tasks of easy
      tuples. */
  lemma {:induction false} CellSamplesMembers(data: Dict<Task>, i: nat, draws: nat -> seq<nat>)
    ensures forall e | e in CellSamples(Groups(data), i, draws) :: e in Eligible(data) && Easy(Key(e))
    decreases 9 - i
  {
    if i < 9 {
      CellSample(data, i, draws(i));
      CellSamplesMembers(data, i + 1, draws);
    }
  }

  /** A sample of the tasks of a tuple not sampled yet: such tasks, with new
      and distinct names. */
  lemma ExtraSample(data: Dict<Task>, k: seq<int>, picked: Dict<Task>, n: nat, draws: seq<nat>)
    ensures forall e | e in Pick(Unsampled(ListOf(Groups(data), k), picked), n, draws) ::
      e in Eligible(data) && Key(e) == k && e.0 !in Keys(picked)
    ensures DistinctKeys(data) ==> DistinctBy(Pick(Unsampled(ListOf(Groups(data), k), picked), n, draws), Name)
  {
    var list := ListOf(Groups(data), k);
    var left := Unsampled(list, picked);
    var p := Pick(left, n, draws);
    GroupList(data, k);
    assert multiset(p) <= multiset(list);
    forall e | e in p ensures e in list && e in left {
      assert e in multiset(p);
    }
    if DistinctKeys(data) {
      SubDistinct(p, list, Name);
    }
  }

  /** The first extra sample is appended after the cells. */
  lemma ZerosAppended(data: Dict<Task>, draws: nat -> seq<nat>)
    requires DistinctKeys(data)
    ensures AfterZeros(data, draws) == AfterCells(data, draws) + Pick(ZerosLeft(data, draws), 2, draws(9))
  {
    var cells := AfterCells(data, draws);
    ExtraSample(data, AllZero, cells, 2, draws(9));
    AddAllAppend(cells, Pick(ZerosLeft(data, draws), 2, draws(9)));
  }

  /** The second extra sample is appended after the first. */
  lemma OnesAppended(data: Dict<Task>, draws: nat -> seq<nat>)
    requires DistinctKeys(data)
    ensures Distribution(data, draws) == AfterZeros(data, draws) + Pick(OnesLeft(data, draws), 1, draws(10))
  {
    var zeros := AfterZeros(data, draws);
    ExtraSample(data, OneMaterial, zeros, 1, draws(10));
    AddAllAppend(zeros, Pick(OnesLeft(data, draws), 1, draws(10)));
  }

  /** What `sample_tasks_with_distribution` writes: the samples of the nine
      cells `(m, r)` with `m, r` in `0..2`, in loop order, each of
      `min(3, candidates)` tasks of its cell; then a sample of `min(2, left)`
      of the `(0, 0, 0, 0)` tasks not sampled in the cells; then one of
      `min(1, left)` of the `(1, 0, 0, 0)` tasks not sampled before. At most
      thirty tasks in all. */
  lemma DistributionShape(data: Dict<Task>, draws: nat -> seq<nat>)
    requires DistinctKeys(data)
    ensures AfterCells(data, draws) == CellSamples(Groups(data), 0, draws)
    ensures AfterZeros(data, draws) == AfterCells(data, draws) + Pick(ZerosLeft(data, draws), 2, draws(9))
    ensures Distribution(data, draws) == AfterZeros(data, draws) + Pick(OnesLeft(data, draws), 1, draws(10))
    ensures |Distribution(data, draws)| <= 30
  {
    CellsAppend(data, 0, draws, []);
    ZerosAppended(data, draws);
    OnesAppended(data, draws);
  }

  /** A kept task of an easy tuple. */
  predicate Good(data: Dict<Task>, e: Entry)
  {
    e in Eligible(data) && Easy(Key(e))
  }

  /** An extra sample of an easy tuple adds only kept tasks of easy
      tuples. */
  lemma ExtraGood(data: Dict<Task>, k: seq<int>, picked: Dict<Task>, n: nat, draws: seq<nat>)
    requires Easy(k)
    requires forall e | e in picked :: Good(data, e)
    ensures forall e | e in AddAll(picked, Pick(Unsampled(ListOf(Groups(data), k), picked), n, draws)) :: Good(data, e)
  {
    ExtraSample(data, k, picked, n, draws);
    AddAllMembers(picked, Pick(Unsampled(ListOf(Groups(data), k), picked), n, draws));
  }

  /** Every task written is a task of the file with at least three levels
      and an easy tuple. */
  lemma DistributionMembers(data: Dict<Task>, draws: nat -> seq<nat>)
    ensures forall e | e in Distribution(data, draws) :: e in data && e.1.levels >= 3 && Easy(Key(e))
  {
    CellsMembers(data, 0, draws, []);
    ExtraGood(data, AllZero, AfterCells(data, draws), 2, draws(9));
    ExtraGood(data, OneMaterial, AfterZeros(data, draws), 1, draws(10));
  }

  /** Whatever the names, the cells add only kept tasks of easy tuples. */
  lemma {:induction false} CellsMembers(data: Dict<Task>, i: nat, draws: nat -> seq<nat>, picked: Dict<Task>)
    requires forall e | e in picked :: Good(data, e)
    ensures forall e | e in Cells(Groups(data), i, draws, picked) :: Good(data, e)
    decreases 9 - i
  {
    if i < 9 {
      var p := Pick(Candidates(Groups(data), i), 3, draws(i));
      CellSample(data, i, draws(i));
      AddFreshMembers(picked, p);
      CellsMembers(data, i + 1, draws, AddFresh(picked, p));
    }
  }
}
