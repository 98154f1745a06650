/** What the two construction task filters share: the tasks of a task file,
    the difficulty tuple read from a task's name, the difficulty score, and
    the rule that keeps only tasks of at least three levels. */
module ConstructionTasks {
  import opened Text
  import opened Dict
  import opened TaskNames
  import opened Sorting
  import opened Table
  import opened Choice

  /** A task of a task file. The filters read only the number of levels of
      its blueprint (none when the blueprint or its level list is missing);
      the rest of the task is carried along unread. */
  datatype Task = Task(levels: nat, rest: string)

  type Entry = (string, Task)

  /** `min(a, b)` */
  function Min(a: nat, b: nat): nat
  {
    if a <= b then a else b
  }

  function Name(e: Entry): string
  {
    e.0
  }

  /** `extract_difficulty(name)` as a tuple key `(m, r, w, c)`. */
  function KeyOf(name: string): (k: seq<int>)
    ensures |k| == 4 && k[0] >= 0 && k[1] >= 0 && k[2] >= 0 && k[3] >= 0
  {
    var p := ExtractDifficulty(name);
    [p.m, p.r, p.w, p.c]
  }

  function Key(e: Entry): seq<int>
  {
    KeyOf(e.0)
  }

  /** `calculate_difficulty_score`: four per material, ten per room, two
      per window and one per carpet. Its `alpha` and `beta` parameters and
      the level count it reads take no part in the score. */
  function DifficultyScore(name: string): nat
  {
    var p := ExtractDifficulty(name);
    4 * p.m + 10 * p.r + 2 * p.w + p.c
  }

  /** A generated task name is scored and keyed by the parameters it was
      generated from. */
  lemma DifficultyOfTaskName(p: Params, variant: nat)
    ensures KeyOf(TaskName(p, variant)) == [p.m, p.r, p.w, p.c]
    ensures DifficultyScore(TaskName(p, variant)) == 4 * p.m + 10 * p.r + 2 * p.w + p.c
  {
    ExtractDifficultyOfTaskName(p, variant);
  }

  /** A name the pattern cannot read counts as the easiest tuple. */
  lemma UnreadNameEasiest(name: string)
    requires !Contains(name, "materials_")
    ensures KeyOf(name) == [0, 0, 0, 0] && DifficultyScore(name) == 0
  {
    NoMaterialsNoMatch(name);
  }

  /** The tasks with at least three levels, in file order: `valid_tasks`,
      and the tasks `process_json` scores. */
  function Eligible(data: Dict<Task>): (v: Dict<Task>)
    ensures forall e | e in v :: e in data && e.1.levels >= 3
    ensures forall e | e in data && e.1.levels >= 3 :: e in v
    ensures multiset(v) <= multiset(data)
  {
    if |data| == 0 then []
    else
      assert data == [data[0]] + data[1..];
      (if data[0].1.levels >= 3 then [data[0]] else []) + Eligible(data[1..])
  }

  /** `filtered_out`: the number of tasks with fewer than three levels. */
  function FilteredOut(data: Dict<Task>): nat
  {
    if |data| == 0 then 0
    else (if data[0].1.levels < 3 then 1 else 0) + FilteredOut(data[1..])
  }

  /** Every task is either filtered out or kept. */
  lemma {:induction false} FilteredOutCount(data: Dict<Task>)
    ensures FilteredOut(data) + |Eligible(data)| == |data|
  {
    if |data| > 0 {
      FilteredOutCount(data[1..]);
    }
  }

  /** The tasks of a JSON object have distinct names, and so do those kept. */
  lemma EligibleDistinct(data: Dict<Task>)
    requires DistinctKeys(data)
    ensures DistinctBy(data, Name)
    ensures DistinctBy(Eligible(data), Name)
  {
    SubDistinct(Eligible(data), data, Name);
  }

  /** A list of tasks with distinct names is a dictionary with distinct keys. */
  lemma DistinctNamesKeys(es: seq<Entry>)
    requires DistinctBy(es, Name)
    ensures DistinctKeys(es)
  {
    assert forall i, j | 0 <= i < j < |es| :: Name(es[i]) != Name(es[j]);
  }

  /** `tasks_by_params`: the kept tasks grouped by difficulty tuple. */
  function Groups(data: Dict<Task>): Table<seq<Entry>>
  {
    GroupBy(Eligible(data), Key)
  }

  /** The list of a tuple in `tasks_by_params` holds the kept tasks with
      that tuple, in file order, each once. */
  lemma GroupList(data: Dict<Task>, k: seq<int>)
    ensures ListOf(Groups(data), k) == WithKey(Eligible(data), Key, k)
    ensures forall e | e in ListOf(Groups(data), k) :: e in Eligible(data) && Key(e) == k
    ensures DistinctKeys(data) ==> DistinctBy(ListOf(Groups(data), k), Name)
  {
    var v := Eligible(data);
    GroupByFind(v, Key, k);
    WithKeyMembers(v, Key, k);
    if DistinctKeys(data) {
      EligibleDistinct(data);
      WithKeyMultiset(v, Key, k);
      SubDistinct(WithKey(v, Key, k), v, Name);
    }
  }
}
