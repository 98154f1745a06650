/** The results analysis: the same success reading as the crafting one,
    but each task folder must hold exactly two logs, the turns are read
    from last to first, and base folders are kept out of the plan and
    "missing" counters. */
module ResultsAnalyzer {
  import opened Py
  import opened Text
  import opened Logs
  import opened SuccessLogs
  import opened Tallies

  /** `analyze_json_file(file_path)`, reading the turns from last to first. */
  function AnalyzeJsonFile(f: LogFile): Option<bool>
  {
    FileSuccess(f, true)
  }

  /** `extract_result(folder_path)`: the assertion that the folder holds
      exactly two logs comes first, so a folder without logs raises rather
      than giving `None`. */
  function ExtractResult(logs: seq<LogFile>): (r: Outcome<bool>)
  {
    if |logs| != 2 then Raises(AssertionError) else Returns(AnyWin(logs, true))
  }

  /** The result raises exactly when the folder does not hold two logs, so
      the branch for an empty folder is never reached; otherwise it is a
      success exactly when one of the two logs announces one after its last
      turn that is not an object. */
  lemma ExtractResultMeans(logs: seq<LogFile>)
    ensures ExtractResult(logs).Raises? <==> |logs| != 2
    ensures ExtractResult(logs).Raises? ==> ExtractResult(logs).error == AssertionError
    ensures ExtractResult(logs).Returns? ==> |logs| > 0
    ensures ExtractResult(logs) == Returns(true) <==>
      |logs| == 2 && exists i, k | 0 <= i < 2 :: logs[i].Log? && logs[i].turns.TurnList? && ReachedBackward(logs[i].turns.turns, k)
  {
    AnyWinMeans(logs, true);
    forall i | 0 <= i < |logs|
      ensures AnalyzeJsonFile(logs[i]) == Some(true) <==>
        exists k :: logs[i].Log? && logs[i].turns.TurnList? && ReachedBackward(logs[i].turns.turns, k)
    {
      if logs[i].Log? && logs[i].turns.TurnList? {
        ScanBackwardTrue(logs[i].turns.turns);
      }
    }
  }

  /** Whether the counter of category `c` counts a folder with this path.
      The plan and "missing" counters leave base folders out. The high-depth
      test reads `a or (b and not base)`: `and` binds tighter than `or`. */
  predicate InCategory(c: Category, path: string)
  {
    match c
    case Missing => Contains(path, "missing") && !IsBase(path)
    case Base => IsBase(path)
    case BaseNoPlan => BaseWithoutPlan(path)
    case FullPlan => Contains(path, "full_plan") && !IsBase(path)
    case PartialPlan => Contains(path, "partial_plan") && !IsBase(path)
    case NoPlan => Contains(path, "no_plan") && !IsBase(path)
    case HighDepth => Contains(path, "depth_1") || (Contains(path, "depth_2") && !IsBase(path))
    case _ => false
  }

  /** The counters of the results report, in the order it lists them. */
  const Categories: seq<Category> := [Base, BaseNoPlan, Missing, FullPlan, PartialPlan, NoPlan, HighDepth]

  /** Where the report keeps the counter of a category it has. */
  function Slot(c: Category): (k: nat)
    requires !(c.Depth0? || c.Depth1? || c.Depth2?)
    ensures k < |Categories| && Categories[k] == c
  {
    match c
    case Base => 0
    case BaseNoPlan => 1
    case Missing => 2
    case FullPlan => 3
    case PartialPlan => 4
    case NoPlan => 5
    case HighDepth => 6
  }

  /** A base folder is never counted as a plan or "missing" folder. A folder
      naming depth 1 always counts as high depth, even a base folder, while
      one naming only depth 2 counts exactly when it is not a base folder. */
  lemma CategoryRules(p: string)
    ensures IsBase(p) ==> !InCategory(Missing, p) && !InCategory(FullPlan, p) && !InCategory(PartialPlan, p) && !InCategory(NoPlan, p)
    ensures Contains(p, "depth_1") ==> InCategory(HighDepth, p)
    ensures !Contains(p, "depth_1") && Contains(p, "depth_2") ==> (InCategory(HighDepth, p) <==> !IsBase(p))
  {
  }

  /** A task folder: its path and its logs in glob order. */
  datatype Folder = Folder(path: string, logs: seq<LogFile>)

  /** Each folder's path and result; a failed assertion is caught by the
      loop after the folder was counted in the overall total. */
  function Rows(folders: seq<Folder>): (rows: seq<Row>)
    ensures |rows| == |folders|
  {
    seq(|folders|, i requires 0 <= i < |folders| =>
      Row(folders[i].path, match ExtractResult(folders[i].logs) case Returns(b) => Some(b) case Raises(_) => None))
  }

  /** `aggregate_results(local_folders)` before the rates are taken. */
  function AggregateResults(folders: seq<Folder>): (r: Report)
    ensures |r.counters| == |Categories|
  {
    Aggregate(Rows(folders), Categories, InCategory)
  }

  /** The folders of category `c` holding exactly two logs. */
  function PairsIn(folders: seq<Folder>, c: Category): set<int>
  {
    set i | 0 <= i < |folders| && |folders[i].logs| == 2 && InCategory(c, folders[i].path)
  }

  /** Every folder counts in the overall total, but only folders with two
      logs count in a category, and successes never exceed totals. */
  lemma AggregateResultsCounts(folders: seq<Folder>)
    ensures AggregateResults(folders).total == |folders|
    ensures AggregateResults(folders).successful <= AggregateResults(folders).total
    ensures forall k | 0 <= k < |Categories| ::
      && AggregateResults(folders).counters[k].total == |PairsIn(folders, Categories[k])|
      && AggregateResults(folders).counters[k].successful <= AggregateResults(folders).counters[k].total
  {
    var rows := Rows(folders);
    AggregateCounts(rows, Categories, InCategory);
    AggregateBounds(rows, Categories, InCategory);
    forall k | 0 <= k < |Categories|
      ensures AggregateResults(folders).counters[k].total == |PairsIn(folders, Categories[k])|
    {
      assert ScoredIn(rows, Categories[k], InCategory) == PairsIn(folders, Categories[k]);
    }
  }

  /** The base counter and the full-plan counter never share a folder, so
      together they count no more folders than there are. */
  lemma BaseApartFromFullPlan(folders: seq<Folder>)
    ensures AggregateResults(folders).counters[Slot(Base)].total + AggregateResults(folders).counters[Slot(FullPlan)].total
      <= |folders|
  {
    var rows := Rows(folders);
    AggregateCounts(rows, Categories, InCategory);
    var a, b := ScoredIn(rows, Base, InCategory), ScoredIn(rows, FullPlan, InCategory);
    assert a * b == {} by {
      forall i | i in a ensures i !in b {
        CategoryRules(rows[i].path);
      }
    }
    assert |a + b| == |a| + |b|;
    SubsetSize(a + b, Scored(rows));
    ScoredAtMost(rows);
  }

  /** Every rate of the report lies between 0 and 1. */
  lemma AggregateRates(folders: seq<Folder>)
    ensures var r := AggregateResults(folders);
      && 0.0 <= Rate(Counts(r.total, r.successful)) <= 1.0
      && forall k | 0 <= k < |Categories| :: 0.0 <= Rate(r.counters[k]) <= 1.0
  {
    var r := AggregateResults(folders);
    AggregateResultsCounts(folders);
    RateBounds(Counts(r.total, r.successful));
    forall k | 0 <= k < |Categories| ensures 0.0 <= Rate(r.counters[k]) <= 1.0 {
      RateBounds(r.counters[k]);
    }
  }
}
