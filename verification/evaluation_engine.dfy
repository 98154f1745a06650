/** The scoring, aggregation and naming logic of the task evaluation engine:
    the score a conversation log reports, the best score of a task folder,
    the totals over task folders, the split of task IDs over parallel
    servers, the ports and agent names of a server, the operator check and
    the server-settings editor. */
module EvaluationEngine {
  import opened Py
  import opened Text
  import opened Dict
  import opened Logs

  // ---------------------------------------------------------------------
  // The score of one log
  // ---------------------------------------------------------------------

  /** The score a score message reports, read as `analyze_json_file` reads
      it: a message holding `"…: 1"` anywhere is 1, else one holding
      `"…: 0"` is 0, else the number after its last colon. */
  function ReadScore(text: string, parse: NumberParser): Option<real>
  {
    if Contains(text, FullScore) then Some(1.0)
    else if Contains(text, ZeroScore) then Some(0.0)
    else parse(AfterLast(text, ':'))
  }

  /** A message whose score starts with the digit 1 reads as 1, whatever
      follows: a score of 10 counts as 1. */
  lemma TenReadsAsOne(parse: NumberParser)
    ensures ReadScore(ScoreMarker + "10", parse) == Some(1.0)
  {
    var text := ScoreMarker + "10";
    assert text[..|FullScore|] == FullScore;
    assert OccursAt(text, FullScore, 0);
  }

  /** A message whose score starts with the digit 0 reads as 0: a partial
      score of 0.5 counts as 0, and the number parser is never consulted. */
  lemma HalfReadsAsZero(parse: NumberParser)
    ensures ReadScore(ScoreMarker + "0.5", parse) == Some(0.0)
  {
    var text := ScoreMarker + "0.5";
    assert text[..|ZeroScore|] == ZeroScore;
    assert OccursAt(text, ZeroScore, 0);
    assert !Contains(text, FullScore) by {
      forall i | 0 <= i <= |text| - |FullScore| ensures !OccursAt(text, FullScore, i) {
        assert text[i + |FullScore| - 1] != '1';
      }
    }
  }

  /** Any other score is the text after the last colon: the blank the
      message puts before the number, then the number. */
  lemma OtherScoresParsed(number: string, parse: NumberParser)
    requires forall i | 0 <= i < |number| :: number[i] != ':'
    requires |number| > 0 && number[0] != '0' && number[0] != '1'
    ensures ReadScore(ScoreMarker + number, parse) == parse(" " + number)
  {
    var text := ScoreMarker + number;
    var m := |ScoreMarker|;
    forall i | 0 <= i <= |text| - |FullScore|
      ensures !OccursAt(text, FullScore, i) && !OccursAt(text, ZeroScore, i)
    {
      if i == 0 {
        assert text[m] == number[0];
      } else if i == 1 {
        assert text[i + 22] == ' ';
      } else {
        assert text[i + 22] == number[i - 2];
      }
    }
    forall i | 22 < i < |text| ensures text[i] != ':' {
      if i > 23 { assert text[i] == number[i - m]; }
    }
    AfterLastAt(text, ':', 22);
    assert text[23..] == " " + number;
  }

  /** `i` is the turn `analyze_json_file` reads its score from: the first
      system turn mentioning the score message, with only JSON objects
      before it. */
  predicate ScoreTurn(ts: seq<Turn>, i: int)
  {
    && 0 <= i < |ts|
    && Mentions(ts[i], ScoreMarker)
    && forall j | 0 <= j < i :: ts[j].Turn? && !Mentions(ts[j], ScoreMarker)
  }

  /** The loop of `analyze_json_file` over a list of turns. `.get` on a
      turn that is not an object raises `AttributeError`, which the
      function catches and answers with `None`. */
  function ScanScore(ts: seq<Turn>, parse: NumberParser): Option<real>
  {
    if |ts| == 0 then None
    else if ts[0].NonObject? then None
    else if Mentions(ts[0], ScoreMarker) then ReadScore(SystemText(ts[0]).value, parse)
    else ScanScore(ts[1..], parse)
  }

  /** `analyze_json_file(path)`: every failure is caught and answered with
      `None`. A `turns` field that is a string or an object iterates over
      strings, and one that is a number or `null` cannot be iterated, so
      only a list of turns can yield a score. */
  function AnalyzeJsonFile(f: LogFile, parse: NumberParser): Option<real>
  {
    if f.Log? && f.turns.TurnList? then ScanScore(f.turns.turns, parse) else None
  }

  lemma {:induction false} ScanScoreAt(ts: seq<Turn>, i: int, parse: NumberParser)
    requires ScoreTurn(ts, i)
    ensures ScanScore(ts, parse) == ReadScore(SystemText(ts[i]).value, parse)
  {
    if i > 0 {
      assert ScoreTurn(ts[1..], i - 1) by {
        forall j | 0 <= j < i - 1 ensures ts[1..][j] == ts[j + 1] {}
      }
      ScanScoreAt(ts[1..], i - 1, parse);
    }
  }

  lemma {:induction false} ScanScoreNone(ts: seq<Turn>, parse: NumberParser)
    requires forall i | 0 <= i < |ts| :: !ScoreTurn(ts, i)
    ensures ScanScore(ts, parse) == None
  {
    if |ts| > 0 {
      assert !ScoreTurn(ts, 0);
    }
    if |ts| > 0 && ts[0].Turn? {
      forall i | 0 <= i < |ts| - 1 ensures ScoreTurn(ts[1..], i) ==> ScoreTurn(ts, i + 1) {
        assert ts[1..][i] == ts[i + 1];
        assert forall j | 0 < j <= i :: ts[j] == ts[1..][j - 1];
      }
      ScanScoreNone(ts[1..], parse);
    }
  }

  /** A log's score is read from its score turn, and a log without one has
      no score. */
  lemma AnalyzeJsonFileReads(f: LogFile, parse: NumberParser)
    ensures forall i | ScoreTurn(ListedTurns(f), i) ::
      AnalyzeJsonFile(f, parse) == ReadScore(SystemText(ListedTurns(f)[i]).value, parse)
    ensures (forall i | 0 <= i < |ListedTurns(f)| :: !ScoreTurn(ListedTurns(f), i)) ==> AnalyzeJsonFile(f, parse) == None
  {
    forall i | ScoreTurn(ListedTurns(f), i)
      ensures AnalyzeJsonFile(f, parse) == ReadScore(SystemText(ListedTurns(f)[i]).value, parse)
    {
      ScanScoreAt(ListedTurns(f), i, parse);
    }
    if forall i | 0 <= i < |ListedTurns(f)| :: !ScoreTurn(ListedTurns(f), i) {
      if f.Log? && f.turns.TurnList? {
        ScanScoreNone(f.turns.turns, parse);
      }
    }
  }

  // ---------------------------------------------------------------------
  // The result of one task folder
  // ---------------------------------------------------------------------

  function Max(a: real, b: real): real
  {
    if a >= b then a else b
  }

  /** The loop of `extract_result`: the running maximum of the scores, in
      glob order. */
  function BestScore(logs: seq<LogFile>, parse: NumberParser, current: real): real
  {
    if |logs| == 0 then current
    else
      match AnalyzeJsonFile(logs[0], parse)
      case None => BestScore(logs[1..], parse, current)
      case Some(s) => BestScore(logs[1..], parse, Max(s, current))
  }

  /** `extract_result(folder)`: nothing for a folder without logs, else the
      best score of its logs, starting from 0. */
  function ExtractResult(logs: seq<LogFile>, parse: NumberParser): Option<real>
  {
    if |logs| == 0 then None else Some(BestScore(logs, parse, 0.0))
  }

  /** The score of some log. */
  predicate IsScore(logs: seq<LogFile>, parse: NumberParser, v: real)
  {
    exists i | 0 <= i < |logs| :: AnalyzeJsonFile(logs[i], parse) == Some(v)
  }

  lemma {:induction false} BestScoreIsMax(logs: seq<LogFile>, parse: NumberParser, current: real)
    ensures var b := BestScore(logs, parse, current);
      && b >= current
      && (forall i | 0 <= i < |logs| :: AnalyzeJsonFile(logs[i], parse).Some? ==> b >= AnalyzeJsonFile(logs[i], parse).value)
      && (b == current || IsScore(logs, parse, b))
  {
    if |logs| > 0 {
      var next := match AnalyzeJsonFile(logs[0], parse) case None => current case Some(s) => Max(s, current);
      assert BestScore(logs, parse, current) == BestScore(logs[1..], parse, next);
      BestScoreIsMax(logs[1..], parse, next);
      var b := BestScore(logs, parse, current);
      forall i | 1 <= i < |logs| ensures logs[i] == logs[1..][i - 1] {}
      if b != next {
        var i :| 0 <= i < |logs[1..]| && AnalyzeJsonFile(logs[1..][i], parse) == Some(b);
        assert logs[i + 1] == logs[1..][i];
      }
    }
  }

  /** A folder with logs has a result: the largest score of its logs, or 0
      when none is larger, so never negative. */
  lemma ExtractResultIsMax(logs: seq<LogFile>, parse: NumberParser)
    ensures ExtractResult(logs, parse).Some? <==> |logs| > 0
    ensures ExtractResult(logs, parse).Some? ==> var v := ExtractResult(logs, parse).value;
      && v >= 0.0
      && (forall i | 0 <= i < |logs| :: AnalyzeJsonFile(logs[i], parse).Some? ==> v >= AnalyzeJsonFile(logs[i], parse).value)
      && (v == 0.0 || IsScore(logs, parse, v))
  {
    BestScoreIsMax(logs, parse, 0.0);
  }

  /** The result does not depend on the order glob lists the logs in. */
  lemma ExtractResultOrder(l1: seq<LogFile>, l2: seq<LogFile>, parse: NumberParser)
    requires multiset(l1) == multiset(l2)
    ensures ExtractResult(l1, parse) == ExtractResult(l2, parse)
  {
    assert |l1| == |multiset(l1)| == |l2|;
    if |l1| > 0 {
      ExtractResultIsMax(l1, parse);
      ExtractResultIsMax(l2, parse);
      var v1, v2 := ExtractResult(l1, parse).value, ExtractResult(l2, parse).value;
      if v2 != 0.0 { ScoreMoves(l2, l1, parse, v2); }
      if v1 != 0.0 { ScoreMoves(l1, l2, parse, v1); }
    }
  }

  /** A score of one listing is a score of any reordering, and is bounded by
      that reordering's result. */
  lemma ScoreMoves(from: seq<LogFile>, to: seq<LogFile>, parse: NumberParser, v: real)
    requires multiset(from) == multiset(to) && |to| > 0
    requires IsScore(from, parse, v)
    ensures IsScore(to, parse, v)
  {
    var i :| 0 <= i < |from| && AnalyzeJsonFile(from[i], parse) == Some(v);
    assert from[i] in multiset(to);
    var j :| 0 <= j < |to| && to[j] == from[i];
  }

  // ---------------------------------------------------------------------
  // Totals over task folders
  // ---------------------------------------------------------------------

  /** A task folder: its path split at "/", and its JSON logs in glob order. */
  datatype Folder = Folder(path: seq<string>, logs: seq<LogFile>)

  /** The task type named by a folder's parent directory: the first of
      "cooking", "techtree" and "construction" it contains, else the name
      itself. */
  datatype TaskKind = Cooking | Techtree | Construction | Other(name: string)

  function KindOf(name: string): (k: TaskKind)
    ensures k == Construction <==> !Contains(name, "cooking") && !Contains(name, "techtree") && Contains(name, "construction")
  {
    if Contains(name, "cooking") then Cooking
    else if Contains(name, "techtree") then Techtree
    else if Contains(name, "construction") then Construction
    else Other(name)
  }

  /** `{"total": …, "successful": …}` */
  datatype Totals = Totals(total: nat, successful: real)

  /** The loop of `aggregate_results`: a folder with a result adds one to
      `total` and its result to `successful`. */
  function Tally(folders: seq<Folder>, parse: NumberParser): Totals
  {
    if |folders| == 0 then Totals(0, 0.0)
    else
      var rest := Tally(folders[1..], parse);
      match ExtractResult(folders[0].logs, parse)
      case None => rest
      case Some(v) => Totals(rest.total + 1, rest.successful + v)
  }

  /** `aggregate_results(folders)`: the task type comes from the parent
      directory of the first folder, so an empty list or a path without a
      "/" raises `IndexError`. For construction tasks `successful` becomes
      the mean result, which divides by zero when no folder has logs. */
  function AggregateResults(folders: seq<Folder>, parse: NumberParser): (r: Outcome<Totals>)
  {
    if |folders| == 0 || |folders[0].path| < 2 then Raises(IndexError)
    else
      var t := Tally(folders, parse);
      if KindOf(folders[0].path[|folders[0].path| - 2]) == Construction then
        if t.total == 0 then Raises(ZeroDivisionError)
        else Returns(Totals(t.total, t.successful / (t.total as real)))
      else Returns(t)
  }

  /** The number of folders holding at least one log. */
  function WithLogs(folders: seq<Folder>): nat
  {
    if |folders| == 0 then 0 else (if |folders[0].logs| > 0 then 1 else 0) + WithLogs(folders[1..])
  }

  /** The sum of the folders' results. */
  function ResultSum(folders: seq<Folder>, parse: NumberParser): real
  {
    if |folders| == 0 then 0.0
    else (if |folders[0].logs| > 0 then ExtractResult(folders[0].logs, parse).value else 0.0) + ResultSum(folders[1..], parse)
  }

  /** Every folder with logs counts, even one whose logs hold no score
      message: it counts as a result of 0. The successes are the sum of the
      results, so they are never negative, and they are at most the total
      when no log reports more than 1. */
  lemma {:induction false} TallyCounts(folders: seq<Folder>, parse: NumberParser)
    ensures Tally(folders, parse).total == WithLogs(folders)
    ensures Tally(folders, parse).successful == ResultSum(folders, parse)
    ensures Tally(folders, parse).successful >= 0.0
    ensures (forall i, j | 0 <= i < |folders| && 0 <= j < |folders[i].logs| ::
        AnalyzeJsonFile(folders[i].logs[j], parse).Some? ==> AnalyzeJsonFile(folders[i].logs[j], parse).value <= 1.0)
      ==> Tally(folders, parse).successful <= Tally(folders, parse).total as real
  {
    if |folders| > 0 {
      var f := folders[0];
      TallyCounts(folders[1..], parse);
      ExtractResultIsMax(f.logs, parse);
      forall i | 1 <= i < |folders| ensures folders[i] == folders[1..][i - 1] {}
      if |f.logs| > 0 && ExtractResult(f.logs, parse).value > 1.0 {
        var v := ExtractResult(f.logs, parse).value;
        var j :| 0 <= j < |f.logs| && AnalyzeJsonFile(f.logs[j], parse) == Some(v);
        assert folders[0].logs[j] == f.logs[j];
      }
    }
  }

  /** `aggregate_results` raises exactly when the folder list is empty, the
      first path has no parent, or a construction run has no folder with
      logs; otherwise it reports the tally, and for construction the mean. */
  lemma AggregateResultsOutcome(folders: seq<Folder>, parse: NumberParser)
    ensures var r := AggregateResults(folders, parse);
      && (r == Raises(IndexError) <==> |folders| == 0 || |folders[0].path| < 2)
      && (r == Raises(ZeroDivisionError) <==>
          |folders| > 0 && |folders[0].path| >= 2
          && KindOf(folders[0].path[|folders[0].path| - 2]) == Construction && WithLogs(folders) == 0)
      && (r.Returns? ==>
          && r.value.total == WithLogs(folders)
          && r.value.successful ==
             if KindOf(folders[0].path[|folders[0].path| - 2]) == Construction
             then ResultSum(folders, parse) / (WithLogs(folders) as real)
             else ResultSum(folders, parse))
  {
    TallyCounts(folders, parse);
  }

  /** The `success_rate` of `check_folder_results`: successes over total,
      or 0 without a total. */
  function SuccessRate(t: Totals): real
  {
    if t.total > 0 then t.successful / (t.total as real) else 0.0
  }

  /** `check_folder_results(folder)`: the folder's sub-folders are the
      tasks, or the folder itself when it has none. */
  function CheckFolderResults(subfolders: seq<Folder>, self: Folder, parse: NumberParser): Outcome<(Totals, real)>
  {
    match AggregateResults(if |subfolders| > 0 then subfolders else [self], parse)
    case Raises(e) => Raises(e)
    case Returns(t) => Returns((t, SuccessRate(t)))
  }

  /** The rate is a fraction when the successes are; for construction runs,
      whose `successful` is already the mean result, the rate divides by the
      number of folders a second time. */
  lemma SuccessRateBounds(t: Totals)
    ensures 0.0 <= t.successful <= t.total as real ==> 0.0 <= SuccessRate(t) <= 1.0
    ensures t.total > 0 ==> SuccessRate(t) * (t.total as real) == t.successful
  {
  }

  // ---------------------------------------------------------------------
  // Splitting the tasks over parallel servers
  // ---------------------------------------------------------------------

  /** `s[start::step]` */
  function Strided<T>(s: seq<T>, start: nat, step: nat): seq<T>
    requires step > 0
    decreases |s| - start
  {
    if start >= |s| then [] else [s[start]] + Strided(s, start + step, step)
  }

  /** `s[start::step]` holds the elements at `start`, `start + step`, … that
      exist, in order. */
  lemma {:induction false} StridedAt<T>(s: seq<T>, start: nat, step: nat, k: nat)
    requires step > 0
    ensures k < |Strided(s, start, step)| <==> start + k * step < |s|
    ensures k < |Strided(s, start, step)| ==> Strided(s, start, step)[k] == s[start + k * step]
    decreases k
  {
    if start < |s| && k > 0 {
      StridedAt(s, start + step, step, k - 1);
      assert start + step + (k - 1) * step == start + k * step;
    }
  }

  /** The length half of `StridedAt`, with the position named. */
  lemma StridedLength<T>(s: seq<T>, start: nat, step: nat, k: nat, pos: int)
    requires step > 0 && pos == start + k * step
    ensures k < |Strided(s, start, step)| <==> pos < |s|
  {
    StridedAt(s, start, step, k);
  }

  /** `[task_ids[i::n] for i in range(n)]` */
  function SplitTasks<T>(ids: seq<T>, n: int): (groups: seq<seq<T>>)
    ensures |groups| == if n > 0 then n else 0
  {
    if n <= 0 then [] else seq(n, i requires 0 <= i < n => Strided(ids, i, n))
  }

  /** The ID at position `p` is element `p / n` of group `p % n`. */
  lemma SplitTasksAt<T>(ids: seq<T>, n: int, p: int)
    requires n > 0 && 0 <= p < |ids|
    ensures 0 <= p % n < |SplitTasks(ids, n)|
    ensures p / n < |SplitTasks(ids, n)[p % n]| && SplitTasks(ids, n)[p % n][p / n] == ids[p]
  {
    var i, k := p % n, p / n;
    assert p == i + k * n;
    StridedAt(ids, i, n, k);
  }

  /** Every ID lands in a group: the ID at position `p` is element `p / n`
      of group `p % n`. */
  lemma SplitTasksPlaces<T>(ids: seq<T>, n: int)
    requires n > 0
    ensures forall p | 0 <= p < |ids| ::
      0 <= p % n < n && p / n < |SplitTasks(ids, n)[p % n]| && SplitTasks(ids, n)[p % n][p / n] == ids[p]
  {
    forall p | 0 <= p < |ids|
      ensures 0 <= p % n < n && p / n < |SplitTasks(ids, n)[p % n]| && SplitTasks(ids, n)[p % n][p / n] == ids[p]
    {
      SplitTasksAt(ids, n, p);
    }
  }

  /** A group holds nothing else: element `k` of group `i` is the ID at
      position `i + k * n`, so each group keeps the order of the list. */
  lemma SplitTasksHolds<T>(ids: seq<T>, n: int)
    requires n > 0
    ensures forall i, k | 0 <= i < n && 0 <= k < |SplitTasks(ids, n)[i]| ::
      i + k * n < |ids| && SplitTasks(ids, n)[i][k] == ids[i + k * n]
  {
    forall i, k | 0 <= i < n && 0 <= k < |SplitTasks(ids, n)[i]|
      ensures i + k * n < |ids| && SplitTasks(ids, n)[i][k] == ids[i + k * n]
    {
      StridedAt(ids, i, n, k);
    }
  }

  /** The groups are balanced: sizes never differ by more than one, and the
      groups of lower index are the larger ones. */
  lemma SplitTasksBalanced<T>(ids: seq<T>, n: int, i: int, j: int)
    requires 0 <= i < j < n
    ensures var g := SplitTasks(ids, n); |g[j]| <= |g[i]| <= |g[j]| + 1
  {
    var g := SplitTasks(ids, n);
    assert g[i] == Strided(ids, i, n) && g[j] == Strided(ids, j, n);
    var b := |g[j]|;
    var x := b * n;
    StridedLength(ids, j, n, b, j + x);
    StridedLength(ids, i, n, b + 1, i + x + n);
    if b > 0 {
      StridedLength(ids, j, n, b - 1, j + x - n);
      StridedLength(ids, i, n, b - 1, i + x - n);
    }
  }

  // ---------------------------------------------------------------------
  // Ports, sessions and agent names
  // ---------------------------------------------------------------------

  /** The game server port of the first parallel server. */
  const BasePort := 55916

  /** The mind-server port of the first parallel server. */
  const MindserverBase := 8080

  /** Server `i` listens on `55916 + i`. */
  function ServerPort(i: nat): int
  {
    BasePort + i
  }

  function MindserverPort(port: int): int
  {
    port - BasePort + MindserverBase
  }

  /** `str(server_port - 55916)` */
  function SessionName(port: int): string
  {
    IntToString(port - BasePort)
  }

  /** The data directory `create_server_files` copies for server `i`. */
  function ServerDir(i: nat): string
  {
    "./tasks/server_data_" + NatToString(i) + "/"
  }

  /** The operator list the operator check reads for a session. */
  function OpsFile(session: string): string
  {
    "./tasks/server_data_" + session + "/ops.json"
  }

  /** Server `i` gets mind-server port `8080 + i` and session `"i"`, whose
      operator list lies in the server's own data directory. */
  lemma ServerNaming(i: nat)
    ensures MindserverPort(ServerPort(i)) == MindserverBase + i
    ensures SessionName(ServerPort(i)) == NatToString(i)
    ensures StartsWith(OpsFile(SessionName(ServerPort(i))), ServerDir(i))
  {
    var dir := ServerDir(i);
    assert OpsFile(NatToString(i)) == dir + "ops.json";
    assert OpsFile(NatToString(i))[..|dir|] == dir;
  }

  /** Distinct servers get distinct ports, mind-server ports and sessions. */
  lemma ServersDistinct(i: nat, j: nat)
    requires i != j
    ensures ServerPort(i) != ServerPort(j)
    ensures MindserverPort(ServerPort(i)) != MindserverPort(ServerPort(j))
    ensures SessionName(ServerPort(i)) != SessionName(ServerPort(j))
  {
    ServerNaming(i);
    ServerNaming(j);
    ParseNatToString(i);
    ParseNatToString(j);
  }

  /** The ten names agents take in turn when there are more than two. */
  const HumanNames: seq<string> := ["Andy", "Jill", "Bob", "Sally", "Mike", "Laura", "John", "Emma", "Tom", "Kate"]

  /** The agent names of a session: `Andy` alone, `Andy` and `Jill`, or the
      human names in turn, each followed by `_` and the session name. */
  function AgentNames(n: int, session: string): seq<string>
  {
    if n == 1 then ["Andy_" + session]
    else if n == 2 then ["Andy_" + session, "Jill_" + session]
    else seq(if n > 0 then n else 0, i requires 0 <= i => HumanNames[i % |HumanNames|] + "_" + session)
  }

  /** The one- and two-agent cases follow the general rule: agent `i` is
      always the `i mod 10`-th human name. */
  lemma AgentNamesUniform(n: int, session: string)
    ensures |AgentNames(n, session)| == if n > 0 then n else 0
    ensures forall i | 0 <= i < |AgentNames(n, session)| :: AgentNames(n, session)[i] == HumanNames[i % 10] + "_" + session
  {
    var names := AgentNames(n, session);
    forall i | 0 <= i < |names| ensures names[i] == HumanNames[i % 10] + "_" + session {
      if n <= 2 {
        assert i % 10 == i;
      }
    }
  }

  lemma HumanNamesDistinct(i: int, j: int)
    requires 0 <= i < j < |HumanNames|
    ensures HumanNames[i] != HumanNames[j]
  {
  }

  /** A common ending can be dropped from both sides of an equation. */
  lemma AppendCancel(a: string, b: string, t: string)
    ensures a + t == b + t ==> a == b
  {
    if a + t == b + t {
      assert |a| == |b|;
      assert (a + t)[..|a|] == a;
      assert (b + t)[..|b|] == b;
    }
  }

  /** Up to ten agents have distinct names; the eleventh repeats the first. */
  lemma AgentNamesDistinct(n: int, session: string)
    ensures n <= 10 ==> forall i, j | 0 <= i < j < |AgentNames(n, session)| :: AgentNames(n, session)[i] != AgentNames(n, session)[j]
    ensures n > 10 ==> AgentNames(n, session)[0] == AgentNames(n, session)[10]
  {
    AgentNamesUniform(n, session);
    if n <= 10 {
      var names := AgentNames(n, session);
      forall i, j | 0 <= i < j < |names| ensures names[i] != names[j] {
        var a, b := HumanNames[i], HumanNames[j];
        assert i % 10 == i && j % 10 == j;
        HumanNamesDistinct(i, j);
        AppendCancel(a + "_", b + "_", session);
        AppendCancel(a, b, "_");
      }
    }
  }

  // ---------------------------------------------------------------------
  // The operator check
  // ---------------------------------------------------------------------

  /** `[op["name"] for op in ops_data]`: an entry without a name raises
      `KeyError`. */
  function OpNames(ops: seq<Option<string>>): (r: Outcome<seq<string>>)
    ensures r.Raises? <==> exists i | 0 <= i < |ops| :: ops[i].None?
    ensures r.Raises? ==> r.error == KeyError
    ensures r.Returns? ==> |r.value| == |ops| && forall i | 0 <= i < |ops| :: ops[i] == Some(r.value[i])
  {
    if |ops| == 0 then Returns([])
    else if ops[0].None? then Raises(KeyError)
    else
      match OpNames(ops[1..])
      case Raises(e) =>
        assert exists i | 0 <= i < |ops| :: ops[i].None? by {
          var i :| 0 <= i < |ops[1..]| && ops[1..][i].None?;
          assert ops[i + 1].None?;
        }
        Raises(e)
      case Returns(names) =>
        assert forall i | 1 <= i < |ops| :: ops[i] == ops[1..][i - 1];
        Returns([ops[0].value] + names)
  }

  /** The loop of `check_agent_ops`: false at the first agent missing from
      the operator names. */
  function AllOps(agents: seq<string>, names: seq<string>): bool
  {
    |agents| == 0 || (agents[0] in names && AllOps(agents[1..], names))
  }

  /** `check_agent_ops(agent_names, ops)`, over the parsed operator list. */
  function CheckAgentOps(agents: seq<string>, ops: seq<Option<string>>): Outcome<bool>
  {
    match OpNames(ops)
    case Raises(e) => Raises(e)
    case Returns(names) => Returns(AllOps(agents, names))
  }

  lemma {:induction false} AllOpsMeans(agents: seq<string>, names: seq<string>)
    ensures AllOps(agents, names) <==> forall i | 0 <= i < |agents| :: agents[i] in names
  {
    if |agents| > 0 {
      AllOpsMeans(agents[1..], names);
      assert forall i | 1 <= i < |agents| :: agents[i] == agents[1..][i - 1];
    }
  }

  /** The check holds exactly when every agent is named by some operator
      entry, and raises `KeyError` when an entry has no name. */
  lemma CheckAgentOpsMeans(agents: seq<string>, ops: seq<Option<string>>)
    ensures CheckAgentOps(agents, ops).Raises? <==> exists i | 0 <= i < |ops| :: ops[i].None?
    ensures CheckAgentOps(agents, ops).Returns? ==>
      (CheckAgentOps(agents, ops).value <==> forall a | a in agents :: Some(a) in ops)
  {
    match OpNames(ops)
    case Raises(_) =>
    case Returns(names) =>
      AllOpsMeans(agents, names);
      forall a | a in agents ensures a in names <==> Some(a) in ops {
        if Some(a) in ops {
          var i :| 0 <= i < |ops| && ops[i] == Some(a);
          assert names[i] == a;
        }
      }
  }

  // ---------------------------------------------------------------------
  // The server-settings editor
  // ---------------------------------------------------------------------

  /** What `edit_file` writes for one line and one setting: the setting when
      the line starts with its key, else the line unchanged. */
  function EditLine(line: string, setting: (string, string)): string
  {
    if StartsWith(line, setting.0) then setting.0 + "=" + setting.1 + "\n" else line
  }

  /** `edit_file(file, settings)` as written: the inner loop over the
      settings writes once per line and setting, so each line is written
      once for every setting. */
  function EditFileAsWritten(lines: seq<string>, settings: Dict<string>): seq<string>
  {
    if |lines| == 0 then []
    else seq(|settings|, j requires 0 <= j < |settings| => EditLine(lines[0], settings[j])) + EditFileAsWritten(lines[1..], settings)
  }

  /** The output has one line per input line and setting. */
  lemma {:induction false} EditFileAsWrittenLength(lines: seq<string>, settings: Dict<string>)
    ensures |EditFileAsWritten(lines, settings)| == |lines| * |settings|
  {
    if |lines| > 0 {
      EditFileAsWrittenLength(lines[1..], settings);
      BlockArithmetic(0, 0, |settings|, |lines|);
    }
  }

  /** The `j`-th setting's version of line `i` is written at position
      `i * |settings| + j`. */
  lemma {:induction false} EditFileAsWrittenAt(lines: seq<string>, settings: Dict<string>, i: nat, j: nat)
    requires i < |lines| && j < |settings|
    ensures i * |settings| + j < |EditFileAsWritten(lines, settings)|
    ensures EditFileAsWritten(lines, settings)[i * |settings| + j] == EditLine(lines[i], settings[j])
  {
    var m := |settings|;
    EditFileAsWrittenLength(lines, settings);
    BlockArithmetic(i, j, m, |lines|);
    var out := EditFileAsWritten(lines, settings);
    var rest := EditFileAsWritten(lines[1..], settings);
    assert out == seq(m, j requires 0 <= j < m => EditLine(lines[0], settings[j])) + rest;
    if i > 0 {
      EditFileAsWrittenAt(lines[1..], settings, i - 1, j);
      var q := (i - 1) * m + j;
      assert out[m + q] == rest[q];
      assert lines[i] == lines[1..][i - 1];
    }
  }

  /** The output has one line per input line and setting, the `j`-th
      setting's version of line `i` at position `i * |settings| + j`. */
  lemma EditFileAsWrittenShape(lines: seq<string>, settings: Dict<string>)
    ensures |EditFileAsWritten(lines, settings)| == |lines| * |settings|
    ensures forall i, j | 0 <= i < |lines| && 0 <= j < |settings| ::
      0 <= i * |settings| + j < |lines| * |settings|
      && EditFileAsWritten(lines, settings)[i * |settings| + j] == EditLine(lines[i], settings[j])
  {
    EditFileAsWrittenLength(lines, settings);
    forall i, j | 0 <= i < |lines| && 0 <= j < |settings|
      ensures 0 <= i * |settings| + j < |lines| * |settings|
      && EditFileAsWritten(lines, settings)[i * |settings| + j] == EditLine(lines[i], settings[j])
    {
      EditFileAsWrittenAt(lines, settings, i, j);
    }
  }

  /** Position `i * m + j` lies in the `i`-th block of `m` positions, past the
      first block exactly when `i > 0`. */
  lemma BlockArithmetic(i: nat, j: nat, m: nat, count: nat)
    requires i < count
    ensures m + (count - 1) * m == count * m
    ensures j < m ==> i * m + j < count * m
    ensures i > 0 ==> i * m + j == m + ((i - 1) * m + j) && (j < m ==> (i - 1) * m + j < (count - 1) * m)
  {
    assert count * m == (count - 1) * m + m;
    if i > 0 {
      assert i * m == (i - 1) * m + m;
    }
    if j < m {
      assert i * m + j < (i + 1) * m;
      assert (i + 1) * m <= count * m by { MulMono(i + 1, count, m); }
      if i > 0 {
        assert i * m <= (count - 1) * m by { MulMono(i, count - 1, m); }
      }
    }
  }

  lemma MulMono(a: nat, b: nat, m: nat)
    requires a <= b
    ensures a * m <= b * m
  {
  }

  /** With the two settings `create_server_files` passes, a port line is
      written first with the new port and then again unchanged, and every
      other line is written twice. */
  lemma EditFileAsWrittenDoublesLines()
    ensures EditFileAsWritten(["motd=hi\n", "server-port=25565\n"], [("server-port", "55916"), ("level-name", "Superflat")])
      == ["motd=hi\n", "motd=hi\n", "server-port=55916\n", "server-port=25565\n"]
  {
    var lines := ["motd=hi\n", "server-port=25565\n"];
    var settings := [("server-port", "55916"), ("level-name", "Superflat")];
    assert StartsWith(lines[1], settings[0].0);
    assert !StartsWith(lines[0], settings[0].0) by {
      assert lines[0][0] != settings[0].0[0];
    }
    assert !StartsWith(lines[0], settings[1].0) by {
      assert lines[0][0] != settings[1].0[0];
    }
    assert !StartsWith(lines[1], settings[1].0) by {
      assert lines[1][0] != settings[1].0[0];
    }
    EditFileAsWrittenAt(lines, settings, 0, 0);
    EditFileAsWrittenAt(lines, settings, 0, 1);
    EditFileAsWrittenAt(lines, settings, 1, 0);
    EditFileAsWrittenAt(lines, settings, 1, 1);
    EditFileAsWrittenLength(lines, settings);
    var out := EditFileAsWritten(lines, settings);
    assert out[0] == lines[0] && out[1] == lines[0] && out[3] == lines[1];
    assert out[2] == "server-port=55916\n";
  }

  /** The first setting whose key starts the line. */
  function MatchingSetting(line: string, settings: Dict<string>): (r: Option<(string, string)>)
    ensures r.None? <==> forall j | 0 <= j < |settings| :: !StartsWith(line, settings[j].0)
    ensures r.Some? ==> exists j | 0 <= j < |settings| ::
      settings[j] == r.value && StartsWith(line, settings[j].0) && forall k | 0 <= k < j :: !StartsWith(line, settings[k].0)
  {
    if |settings| == 0 then None
    else if StartsWith(line, settings[0].0) then Some(settings[0])
    else
      var r := MatchingSetting(line, settings[1..]);
      assert forall j | 1 <= j < |settings| :: settings[j] == settings[1..][j - 1];
      if r.Some? then
        assert exists j | 0 <= j < |settings| ::
          settings[j] == r.value && StartsWith(line, settings[j].0) && forall k | 0 <= k < j :: !StartsWith(line, settings[k].0) by {
          var j :| 0 <= j < |settings[1..]| && settings[1..][j] == r.value && StartsWith(line, settings[1..][j].0)
            && forall k | 0 <= k < j :: !StartsWith(line, settings[1..][k].0);
          assert settings[j + 1] == r.value;
        }
        r
      else r
  }

  /** The edit the function evidently means: each line written once,
      replaced by the setting of the first key that starts it. */
  function EditFile(lines: seq<string>, settings: Dict<string>): seq<string>
  {
    seq(|lines|, i requires 0 <= i < |lines| =>
      match MatchingSetting(lines[i], settings)
      case None => lines[i]
      case Some(s) => s.0 + "=" + s.1 + "\n")
  }

  /** Each line is kept when no key starts it and otherwise becomes a
      setting line for one of the keys that start it; a line never appears
      twice. */
  lemma EditFileLines(lines: seq<string>, settings: Dict<string>)
    ensures |EditFile(lines, settings)| == |lines|
    ensures forall i | 0 <= i < |lines| ::
      (forall j | 0 <= j < |settings| :: !StartsWith(lines[i], settings[j].0)) ==> EditFile(lines, settings)[i] == lines[i]
    ensures forall i | 0 <= i < |lines| ::
      (exists j | 0 <= j < |settings| :: StartsWith(lines[i], settings[j].0)) ==>
      exists j | 0 <= j < |settings| :: StartsWith(lines[i], settings[j].0)
        && EditFile(lines, settings)[i] == settings[j].0 + "=" + settings[j].1 + "\n"
  {
  }

  /** With a single setting, as `launch_server_experiment` passes, the
      editor as written already does what is meant. */
  lemma EditFileOneSetting(lines: seq<string>, setting: (string, string))
    ensures EditFileAsWritten(lines, [setting]) == EditFile(lines, [setting])
  {
    var out := EditFileAsWritten(lines, [setting]);
    EditFileAsWrittenShape(lines, [setting]);
    forall i | 0 <= i < |lines| ensures out[i] == EditFile(lines, [setting])[i] {
      assert i * 1 + 0 == i;
    }
  }

  /** The corrected editor, on the lines of the counterexample: the port line
      now carries the new port only. */
  lemma EditFileSetsPort()
    ensures EditFile(["motd=hi\n", "server-port=25565\n"], [("server-port", "55916"), ("level-name", "Superflat")])
      == ["motd=hi\n", "server-port=55916\n"]
  {
    var lines := ["motd=hi\n", "server-port=25565\n"];
    var settings := [("server-port", "55916"), ("level-name", "Superflat")];
    assert StartsWith(lines[1], settings[0].0);
    assert !StartsWith(lines[0], settings[0].0) by {
      assert lines[0][0] != settings[0].0[0];
    }
    assert !StartsWith(lines[0], settings[1].0) by {
      assert lines[0][0] != settings[1].0[0];
    }
    var out := EditFile(lines, settings);
    assert out[0] == lines[0];
    assert MatchingSetting(lines[1], settings) == Some(settings[0]);
    assert out[1] == "server-port=55916\n";
  }
}
