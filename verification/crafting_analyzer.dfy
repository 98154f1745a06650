/** The crafting analysis: a task folder succeeds when any of its logs
    announces a success, and the folders are counted overall and by plan
    availability and depth, read from the folder's path. */
module CraftingAnalyzer {
  import opened Py
  import opened Text
  import opened Logs
  import opened SuccessLogs
  import opened Tallies

  /** `analyze_json_file(file_path)`, reading the turns from first to last. */
  function AnalyzeJsonFile(f: LogFile): Option<bool>
  {
    FileSuccess(f, false)
  }

  /** `extract_result(folder_path)`: nothing for a folder without logs,
      else whether any log announces a success. */
  function ExtractResult(logs: seq<LogFile>): Option<bool>
  {
    if |logs| == 0 then None else Some(AnyWin(logs, false))
  }

  /** The result is missing exactly for a folder without logs, and is a
      success exactly when some log reaches a success turn before any turn
      that is not an object. */
  lemma ExtractResultMeans(logs: seq<LogFile>)
    ensures ExtractResult(logs).None? <==> |logs| == 0
    ensures ExtractResult(logs) == Some(true) <==>
      exists i, k | 0 <= i < |logs| :: logs[i].Log? && logs[i].turns.TurnList? && ReachedForward(logs[i].turns.turns, k)
  {
    AnyWinMeans(logs, false);
    forall i | 0 <= i < |logs|
      ensures AnalyzeJsonFile(logs[i]) == Some(true) <==>
        exists k :: logs[i].Log? && logs[i].turns.TurnList? && ReachedForward(logs[i].turns.turns, k)
    {
      if logs[i].Log? && logs[i].turns.TurnList? {
        ScanForwardTrue(logs[i].turns.turns);
      }
    }
  }

  /** Whether the counter of category `c` counts a folder with this path. The
      depth counters are exclusive: a path naming several depths counts
      only for the first of depth 0, 1 and 2. */
  predicate InCategory(c: Category, path: string)
  {
    match c
    case Missing => Contains(path, "missing")
    case Base => IsBase(path)
    case BaseNoPlan => BaseWithoutPlan(path)
    case FullPlan => Contains(path, "full_plan")
    case PartialPlan => Contains(path, "partial_plan")
    case NoPlan => Contains(path, "no_plan")
    case HighDepth => Contains(path, "depth_1") || Contains(path, "depth_2")
    case Depth0 => Contains(path, "depth_0")
    case Depth1 => !Contains(path, "depth_0") && Contains(path, "depth_1")
    case Depth2 => !Contains(path, "depth_0") && !Contains(path, "depth_1") && Contains(path, "depth_2")
  }

  /** The counters of the crafting report, in the order it lists them. */
  const Categories: seq<Category> :=
    [Base, BaseNoPlan, Missing, FullPlan, PartialPlan, NoPlan, HighDepth, Depth0, Depth1, Depth2]

  /** A task folder: its path and its logs in glob order. */
  datatype Folder = Folder(path: string, logs: seq<LogFile>)

  /** Each folder's path and result. `int(None)` raises a type error, which
      the loop catches after counting the folder in the overall total. */
  function Rows(folders: seq<Folder>): (rows: seq<Row>)
    ensures |rows| == |folders|
  {
    seq(|folders|, i requires 0 <= i < |folders| => Row(folders[i].path, ExtractResult(folders[i].logs)))
  }

  /** `aggregate_results(local_folders)` before the rates are taken. */
  function AggregateResults(folders: seq<Folder>): (r: Report)
    ensures |r.counters| == |Categories|
  {
    Aggregate(Rows(folders), Categories, InCategory)
  }

  /** The folders of category `c` that hold logs. */
  function HeldIn(folders: seq<Folder>, c: Category): set<int>
  {
    set i | 0 <= i < |folders| && |folders[i].logs| > 0 && InCategory(c, folders[i].path)
  }

  /** Every folder counts in the overall total, but a folder without logs
      counts in no category: each category's total is the number of its
      folders holding logs, and successes never exceed totals. */
  lemma AggregateResultsCounts(folders: seq<Folder>)
    ensures AggregateResults(folders).total == |folders|
    ensures forall k | 0 <= k < |Categories| ::
      && AggregateResults(folders).counters[k].total == |HeldIn(folders, Categories[k])|
      && AggregateResults(folders).counters[k].successful <= AggregateResults(folders).counters[k].total
    ensures AggregateResults(folders).successful <= AggregateResults(folders).total
  {
    var rows := Rows(folders);
    AggregateCounts(rows, Categories, InCategory);
    AggregateBounds(rows, Categories, InCategory);
    forall k | 0 <= k < |Categories|
      ensures AggregateResults(folders).counters[k].total == |HeldIn(folders, Categories[k])|
    {
      assert ScoredIn(rows, Categories[k], InCategory) == HeldIn(folders, Categories[k]);
    }
  }

  /** Where the report keeps the counter of a category. */
  function Slot(c: Category): (k: nat)
    ensures k < |Categories| && Categories[k] == c
  {
    match c
    case Base => 0
    case BaseNoPlan => 1
    case Missing => 2
    case FullPlan => 3
    case PartialPlan => 4
    case NoPlan => 5
    case HighDepth => 6
    case Depth0 => 7
    case Depth1 => 8
    case Depth2 => 9
  }

  /** The depth counters never overlap. */
  lemma DepthExclusive(p: string)
    ensures !(InCategory(Depth0, p) && InCategory(Depth1, p))
    ensures !(InCategory(Depth0, p) && InCategory(Depth2, p))
    ensures !(InCategory(Depth1, p) && InCategory(Depth2, p))
    ensures InCategory(Depth1, p) || InCategory(Depth2, p) ==> InCategory(HighDepth, p)
  {
  }

  /** Both deeper depth counters lie inside the high-depth counter and
      never overlap, so together they count at most as many folders. */
  lemma DepthBuckets(folders: seq<Folder>)
    ensures var r := AggregateResults(folders);
      r.counters[Slot(Depth1)].total + r.counters[Slot(Depth2)].total <= r.counters[Slot(HighDepth)].total
  {
    var rows := Rows(folders);
    AggregateCounts(rows, Categories, InCategory);
    forall p: string ensures !(InCategory(Depth1, p) && InCategory(Depth2, p)) {
      DepthExclusive(p);
    }
    forall p: string ensures InCategory(Depth1, p) || InCategory(Depth2, p) ==> InCategory(HighDepth, p) {
      DepthExclusive(p);
    }
    DisjointWithin(rows, Depth1, Depth2, HighDepth, InCategory);
  }

  /** Every rate of the report lies between 0 and 1, and is 0 for an empty
      counter. */
  lemma AggregateRates(folders: seq<Folder>)
    ensures var r := AggregateResults(folders);
      && 0.0 <= Rate(Counts(r.total, r.successful)) <= 1.0
      && forall k | 0 <= k < |Categories| :: 0.0 <= Rate(r.counters[k]) <= 1.0
  {
    var r := AggregateResults(folders);
    AggregateResultsCounts(folders);
    RateBounds(Counts(r.total, r.successful));
    forall k | 0 <= k < |Categories| ensures 0.0 <= Rate(r.counters[k]) <= 1.0 {
      RateBounds(r.counters[k]);
    }
  }
}
