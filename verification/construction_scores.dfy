/** How the construction analyzer's `extract_success_scores` reads its logs:
    the score of one conversation log, the status of one task folder, and
    what it records for every task folder it visits under a model's
    directory: the score table, each model's list of scores, its list of
    tasks scored 0 and its list of tasks skipped for want of a score. */
module ConstructionScores {
  import opened Py
  import opened Text
  import opened Dict
  import opened Logs

  /** The text a score message holds. */
  const EndMarker := "Task ended with score"

  /** A system turn announcing the score. */
  predicate IsScoreTurn(t: Turn)
  {
    Mentions(t, EndMarker)
  }

  /** A turn the backward scan steps over without raising: an object with a
      `role`, holding a `content` that `in` can search when the role is
      `"system"`, and no score message. */
  predicate Passes(t: Turn)
  {
    && t.Turn?
    && t.role.Some?
    && (t.role == Some(Str("system")) ==> t.content.Some? && !t.content.value.Atom?)
    && !IsScoreTurn(t)
  }

  /** What the scan of one log ends with: a score, no score message, or an
      exception, which the analyzer catches and reports. */
  datatype Scan = Found(score: real) | Missing | Failed

  /** `float(content.split(":")[-1].strip())` on a score turn; a text the
      number parser rejects raises `ValueError`. */
  function ScoreOf(t: Turn, parse: NumberParser): (r: Scan)
    requires IsScoreTurn(t)
    ensures r != Missing
  {
    match parse(AfterLast(SystemText(t).value, ':'))
    case Some(v) => Found(v)
    case None => Failed
  }

  /** The loop over `reversed(data.get("turns", []))`: the last turn first,
      stopping at the first score message met. A turn that is not an object,
      or lacks the `role` it is asked for, or a system turn whose `content`
      is missing or a number, boolean or null, raises. */
  function RevScan(ts: seq<Turn>, parse: NumberParser): Scan
  {
    if |ts| == 0 then Missing
    else
      var t := ts[|ts| - 1];
      if IsScoreTurn(t) then ScoreOf(t, parse)
      else if Passes(t) then RevScan(ts[..|ts| - 1], parse)
      else Failed
  }

  /** `i` holds the last score message of the log, and every turn after it
      is stepped over. */
  predicate LastScoreAt(ts: seq<Turn>, i: int)
  {
    && 0 <= i < |ts|
    && IsScoreTurn(ts[i])
    && forall j | i < j < |ts| :: Passes(ts[j])
  }

  /** The scan reads the last score message, when every turn after it can
      be stepped over. */
  lemma {:induction false} RevScanAt(ts: seq<Turn>, i: int, parse: NumberParser)
    requires LastScoreAt(ts, i)
    ensures RevScan(ts, parse) == ScoreOf(ts[i], parse)
    decreases |ts|
  {
    if i < |ts| - 1 {
      var init := ts[..|ts| - 1];
      assert LastScoreAt(init, i) by {
        assert forall j | i < j < |init| :: init[j] == ts[j];
      }
      RevScanAt(init, i, parse);
    }
  }

  /** A scan finds nothing exactly when every turn can be stepped over. */
  lemma {:induction false} RevScanMissing(ts: seq<Turn>, parse: NumberParser)
    ensures RevScan(ts, parse) == Missing <==> forall j | 0 <= j < |ts| :: Passes(ts[j])
    decreases |ts|
  {
    if |ts| > 0 {
      var init := ts[..|ts| - 1];
      RevScanMissing(init, parse);
      assert forall j | 0 <= j < |init| :: init[j] == ts[j];
    }
  }

  /** A system turn whose content is a number, boolean or null makes the
      scan raise when it reaches it, even with a score message before it. */
  lemma ScalarContentFails(ts: seq<Turn>, parse: NumberParser)
    requires |ts| > 0 && ts[|ts| - 1] == Turn(Some(Str("system")), Some(Atom))
    ensures RevScan(ts, parse) == Failed
  {
  }

  /** A score comes from the last score message of the log. */
  lemma {:induction false} RevScanFound(ts: seq<Turn>, parse: NumberParser)
    ensures RevScan(ts, parse).Found? ==> exists i | LastScoreAt(ts, i) :: ScoreOf(ts[i], parse) == RevScan(ts, parse)
    decreases |ts|
  {
    if |ts| > 0 && RevScan(ts, parse).Found? {
      var n := |ts| - 1;
      if IsScoreTurn(ts[n]) {
        assert LastScoreAt(ts, n);
      } else {
        var init := ts[..n];
        RevScanFound(init, parse);
        var i :| LastScoreAt(init, i) && ScoreOf(init[i], parse) == RevScan(init, parse);
        LastScoreExtends(ts, i);
      }
    }
  }

  /** A last score message of all but the final turn stays the last one
      when the final turn can be stepped over. */
  lemma LastScoreExtends(ts: seq<Turn>, i: int)
    ensures |ts| > 0 && LastScoreAt(ts[..|ts| - 1], i) && Passes(ts[|ts| - 1]) ==>
      LastScoreAt(ts, i) && ts[..|ts| - 1][i] == ts[i]
  {
    if |ts| > 0 {
      var init := ts[..|ts| - 1];
      assert forall j | 0 <= j < |init| :: init[j] == ts[j];
    }
  }

  /** The score of one log file, or nothing: a file that cannot be read, a
      `turns` field that is not a list, or a scan that raises or finds no
      score message all leave the task without a score from this file. */
  function FileScore(f: LogFile, parse: NumberParser): Option<real>
  {
    match RevScan(ListedTurns(f), parse)
    case Found(v) => Some(v)
    case _ => None
  }

  /** A file the folder loop opens. */
  predicate IsLog(name: string)
  {
    EndsWith(name, ".json")
  }

  /** What a task folder yields for a model. */
  datatype Status = Scored(score: real) | Skipped | NoLogs

  /** The loop over the files of a task folder: the first log that yields a
      score decides; a folder with logs but no score is skipped; a folder
      without logs is only reported. */
  function FolderStatus(files: seq<(string, LogFile)>, parse: NumberParser): Status
  {
    if |files| == 0 then NoLogs
    else
      var rest := FolderStatus(files[1..], parse);
      if !IsLog(files[0].0) then rest
      else match FileScore(files[0].1, parse)
        case Some(v) => Scored(v)
        case None => if rest.NoLogs? then Skipped else rest
  }

  /** `i` is the first log of the folder with a score. */
  predicate FirstScoring(files: seq<(string, LogFile)>, i: int, parse: NumberParser)
  {
    && 0 <= i < |files|
    && IsLog(files[i].0)
    && FileScore(files[i].1, parse).Some?
    && forall j | 0 <= j < i :: IsLog(files[j].0) ==> FileScore(files[j].1, parse).None?
  }

  predicate HasLogs(files: seq<(string, LogFile)>)
  {
    exists i | 0 <= i < |files| :: IsLog(files[i].0)
  }

  predicate NoScore(files: seq<(string, LogFile)>, parse: NumberParser)
  {
    forall i | 0 <= i < |files| :: IsLog(files[i].0) ==> FileScore(files[i].1, parse).None?
  }

  /** A folder is scored by its first log with a score, skipped when it has
      logs and none of them has a score, and has no logs otherwise. */
  lemma {:induction false} FolderStatusMeans(files: seq<(string, LogFile)>, parse: NumberParser)
    ensures FolderStatus(files, parse).NoLogs? <==> !HasLogs(files)
    ensures FolderStatus(files, parse).Skipped? <==> HasLogs(files) && NoScore(files, parse)
    ensures FolderStatus(files, parse).Scored? <==> !NoScore(files, parse)
    ensures forall i | FirstScoring(files, i, parse) :: FolderStatus(files, parse) == Scored(FileScore(files[i].1, parse).value)
  {
    if |files| > 0 {
      var rest := files[1..];
      FolderStatusMeans(rest, parse);
      assert forall j | 0 <= j < |rest| :: rest[j] == files[j + 1];
      assert HasLogs(files) <==> IsLog(files[0].0) || HasLogs(rest) by {
        if HasLogs(files) && !IsLog(files[0].0) {
          var i :| 0 <= i < |files| && IsLog(files[i].0);
          assert IsLog(rest[i - 1].0);
        }
      }
      assert NoScore(files, parse) <==> (IsLog(files[0].0) ==> FileScore(files[0].1, parse).None?) && NoScore(rest, parse);
      forall i | FirstScoring(files, i, parse) ensures FolderStatus(files, parse) == Scored(FileScore(files[i].1, parse).value) {
        if i > 0 {
          assert FirstScoring(rest, i - 1, parse);
        }
      }
    }
  }

  /** The last score message of the first log with one decides the score
      of a folder. */
  lemma FolderScoreFromTurn(files: seq<(string, LogFile)>, i: int, t: int, parse: NumberParser)
    ensures FirstScoring(files, i, parse) && LastScoreAt(ListedTurns(files[i].1), t) ==>
      && ScoreOf(ListedTurns(files[i].1)[t], parse).Found?
      && FolderStatus(files, parse) == Scored(ScoreOf(ListedTurns(files[i].1)[t], parse).score)
  {
    if FirstScoring(files, i, parse) && LastScoreAt(ListedTurns(files[i].1), t) {
      FolderStatusMeans(files, parse);
      RevScanAt(ListedTurns(files[i].1), t, parse);
    }
  }

  // ---------------------------------------------------------------------
  // The folders visited
  // ---------------------------------------------------------------------

  /** An entry of a model's directory: a task folder with its files, or
      anything else, which the loop passes over. */
  datatype Entry = Folder(name: string, files: seq<(string, LogFile)>) | Plain(name: string)

  /** One task folder visited for one model, and what it yielded. */
  datatype Visit = Visit(task: string, model: string, status: Status)

  /** The task folders of one model's directory, in listing order. */
  function DirVisits(entries: seq<Entry>, model: string, parse: NumberParser): (vs: seq<Visit>)
    ensures forall v | v in vs :: v.model == model
  {
    if |entries| == 0 then []
    else
      var e := entries[0];
      (if e.Folder? then [Visit(e.name, model, FolderStatus(e.files, parse))] else [])
        + DirVisits(entries[1..], model, parse)
  }

  /** The visits of `zip(folders, model_names)`, directory after directory. */
  function Visits(dirs: seq<seq<Entry>>, models: seq<string>, parse: NumberParser): seq<Visit>
    requires |dirs| == |models|
  {
    if |dirs| == 0 then []
    else DirVisits(dirs[0], models[0], parse) + Visits(dirs[1..], models[1..], parse)
  }

  // ---------------------------------------------------------------------
  // What the visits record
  // ---------------------------------------------------------------------

  /** `d[k]` of a `defaultdict(list)`. */
  function ListIn<T>(d: Dict<seq<T>>, k: string): seq<T>
  {
    match Get(d, k)
    case None => []
    case Some(xs) => xs
  }

  /** `d[k].append(x)` on a `defaultdict(list)`. */
  function Append<T>(d: Dict<seq<T>>, k: string, x: T): Dict<seq<T>>
  {
    Store(d, k, ListIn(d, k) + [x])
  }

  lemma AppendListIn<T>(d: Dict<seq<T>>, k: string, x: T, k': string)
    ensures ListIn(Append(d, k, x), k') == if k' == k then ListIn(d, k) + [x] else ListIn(d, k')
  {
    StoreGet(d, k, ListIn(d, k) + [x], k');
  }

  /** `all_task_scores[task]` of a `defaultdict(dict)`. */
  function ScoresOfTask(scores: Dict<Dict<real>>, task: string): Dict<real>
  {
    match Get(scores, task)
    case None => []
    case Some(d) => d
  }

  /** `all_task_scores[task][model]`, if present. */
  function Lookup(scores: Dict<Dict<real>>, task: string, model: string): Option<real>
  {
    Get(ScoresOfTask(scores, task), model)
  }

  /** `all_task_scores[task][model] = score` */
  function SetScore(scores: Dict<Dict<real>>, task: string, model: string, v: real): Dict<Dict<real>>
  {
    Store(scores, task, Store(ScoresOfTask(scores, task), model, v))
  }

  lemma SetScoreLookup(scores: Dict<Dict<real>>, task: string, model: string, v: real, t: string, m: string)
    ensures Lookup(SetScore(scores, task, model, v), t, m) == if t == task && m == model then Some(v) else Lookup(scores, t, m)
  {
    var inner := Store(ScoresOfTask(scores, task), model, v);
    StoreGet(scores, task, inner, t);
    StoreGet(ScoresOfTask(scores, task), model, v, m);
  }

  /** The dictionaries the loop fills: `all_task_scores`, `overall_scores`,
      `zero_score_tasks` and `skipped_tasks`. */
  datatype Records = Records(scores: Dict<Dict<real>>, overall: Dict<seq<real>>, zeros: Dict<seq<string>>, skipped: Dict<seq<string>>)

  /** What one visit adds. */
  function Record(rs: Records, v: Visit): Records
  {
    match v.status
    case Scored(x) =>
      Records(SetScore(rs.scores, v.task, v.model, x), Append(rs.overall, v.model, x),
              if x == 0.0 then Append(rs.zeros, v.model, v.task) else rs.zeros, rs.skipped)
    case Skipped => rs.(skipped := Append(rs.skipped, v.model, v.task))
    case NoLogs => rs
  }

  /** The records after the given visits, in order. */
  function Recorded(vs: seq<Visit>): (rs: Records)
    ensures DistinctKeys(rs.scores)
  {
    if |vs| == 0 then Records([], [], [], [])
    else Record(Recorded(vs[..|vs| - 1]), vs[|vs| - 1])
  }

  /** The scores of a model's visits, in visiting order. */
  function ScoresFor(vs: seq<Visit>, model: string): (r: seq<real>)
    ensures forall x | x in r :: exists v | v in vs :: v.model == model && v.status == Scored(x)
  {
    if |vs| == 0 then []
    else
      var v := vs[|vs| - 1];
      assert forall w | w in vs[..|vs| - 1] :: w in vs;
      ScoresFor(vs[..|vs| - 1], model) + (if v.model == model && v.status.Scored? then [v.status.score] else [])
  }

  /** The tasks of a model's visits that yielded a given status, in
      visiting order. */
  function TasksWith(vs: seq<Visit>, model: string, status: Status): (r: seq<string>)
    ensures forall t | t in r :: Visit(t, model, status) in vs
    ensures forall v | v in vs && v.model == model && v.status == status :: v.task in r
  {
    if |vs| == 0 then []
    else
      var v := vs[|vs| - 1];
      var init := vs[..|vs| - 1];
      assert vs == init + [v];
      TasksWith(init, model, status) + (if v.model == model && v.status == status then [v.task] else [])
  }

  /** The score of the last visit of a task for a model that yielded one. */
  function LastScore(vs: seq<Visit>, task: string, model: string): (r: Option<real>)
    ensures r.None? <==> forall v | v in vs && v.task == task && v.model == model :: !v.status.Scored?
    ensures r.Some? ==> Visit(task, model, Scored(r.value)) in vs
  {
    if |vs| == 0 then None
    else
      var v := vs[|vs| - 1];
      var init := vs[..|vs| - 1];
      assert vs == init + [v];
      if v.task == task && v.model == model && v.status.Scored? then Some(v.status.score)
      else LastScore(init, task, model)
  }

  lemma {:induction false} RecordedOverall(vs: seq<Visit>, model: string)
    ensures ListIn(Recorded(vs).overall, model) == ScoresFor(vs, model)
  {
    if |vs| > 0 {
      var init, v := vs[..|vs| - 1], vs[|vs| - 1];
      RecordedOverall(init, model);
      if v.status.Scored? {
        AppendListIn(Recorded(init).overall, v.model, v.status.score, model);
      }
    }
  }

  lemma {:induction false} RecordedZeros(vs: seq<Visit>, model: string)
    ensures ListIn(Recorded(vs).zeros, model) == TasksWith(vs, model, Scored(0.0))
  {
    if |vs| > 0 {
      var init, v := vs[..|vs| - 1], vs[|vs| - 1];
      RecordedZeros(init, model);
      if v.status.Scored? {
        AppendListIn(Recorded(init).zeros, v.model, v.task, model);
      }
    }
  }

  lemma {:induction false} RecordedSkipped(vs: seq<Visit>, model: string)
    ensures ListIn(Recorded(vs).skipped, model) == TasksWith(vs, model, Skipped)
  {
    if |vs| > 0 {
      var init, v := vs[..|vs| - 1], vs[|vs| - 1];
      RecordedSkipped(init, model);
      AppendListIn(Recorded(init).skipped, v.model, v.task, model);
    }
  }

  lemma {:induction false} RecordedScores(vs: seq<Visit>, task: string, model: string)
    ensures Lookup(Recorded(vs).scores, task, model) == LastScore(vs, task, model)
  {
    if |vs| > 0 {
      var init, v := vs[..|vs| - 1], vs[|vs| - 1];
      RecordedScores(init, task, model);
      if v.status.Scored? {
        SetScoreLookup(Recorded(init).scores, v.task, v.model, v.status.score, task, model);
      }
    }
  }

  /** What the records hold: for every model, the scores of its visits, the
      tasks scored exactly 0 and the tasks skipped, each in visiting order;
      for every task and model, the score of the last visit that had one. */
  lemma RecordedMeans(vs: seq<Visit>, task: string, model: string)
    ensures ListIn(Recorded(vs).overall, model) == ScoresFor(vs, model)
    ensures ListIn(Recorded(vs).zeros, model) == TasksWith(vs, model, Scored(0.0))
    ensures ListIn(Recorded(vs).skipped, model) == TasksWith(vs, model, Skipped)
    ensures Lookup(Recorded(vs).scores, task, model) == LastScore(vs, task, model)
  {
    RecordedOverall(vs, model);
    RecordedZeros(vs, model);
    RecordedSkipped(vs, model);
    RecordedScores(vs, task, model);
  }

  /** `zero_score_tasks[model]` lists a task exactly when a visit of it for
      that model scored 0. */
  lemma ZerosExactly(vs: seq<Visit>, model: string, task: string)
    ensures task in ListIn(Recorded(vs).zeros, model) <==> Visit(task, model, Scored(0.0)) in vs
  {
    RecordedMeans(vs, task, model);
  }

  /** A task folder with logs but no score for a model is listed as skipped
      and, visited once, receives no score. */
  lemma SkippedHasNoScore(vs: seq<Visit>, i: int)
    requires 0 <= i < |vs| && vs[i].status.Skipped?
    requires forall j | 0 <= j < |vs| && j != i :: vs[j].task != vs[i].task || vs[j].model != vs[i].model
    ensures vs[i].task in ListIn(Recorded(vs).skipped, vs[i].model)
    ensures Lookup(Recorded(vs).scores, vs[i].task, vs[i].model) == None
  {
    var v := vs[i];
    RecordedMeans(vs, v.task, v.model);
    assert v in vs;
    forall w | w in vs && w.task == v.task && w.model == v.model ensures !w.status.Scored? {
      var j :| 0 <= j < |vs| && vs[j] == w;
    }
  }
}
