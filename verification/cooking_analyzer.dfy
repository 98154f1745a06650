/** The cooking analysis: each experiment directory is named by its task ID,
    holds one log per agent, and counts as a success or a failure for its
    blocked-agent key and for each dish it names, or is ignored when no log
    reports a score. */
module CookingAnalyzer {
  import opened Py
  import opened Text
  import opened Dict
  import opened Logs
  import opened HellsKitchen
  import opened IdParsing

  // ---------------------------------------------------------------------
  // Scanning the logs of one directory
  // ---------------------------------------------------------------------

  /** What the scan of a directory's logs has seen: a score message, a
      full-score message, and the exception that ended it, if any. */
  datatype Scan = Scan(found: bool, success: bool, error: Option<PyError>)

  /** The loop over one log's turns: a score message sets `found`, a
      full-score message ends the loop as a success, and a turn that is not
      an object raises on `.get`. */
  function ScanTurns(ts: seq<Turn>, found: bool): (r: Scan)
    ensures found ==> r.found
    ensures r.success ==> r.found && r.error.None?
  {
    if |ts| == 0 then Scan(found, false, None)
    else if ts[0].NonObject? then Scan(found, false, Some(AttributeError))
    else if Mentions(ts[0], ScoreMarker) then
      if Mentions(ts[0], FullScore) then Scan(true, true, None) else ScanTurns(ts[1..], true)
    else ScanTurns(ts[1..], found)
  }

  /** One log file. Only `json.JSONDecodeError` and `IOError` are caught, so
      a file that cannot be opened or parsed is skipped while undecodable
      bytes raise `ValueError`. At the top level, `"turns" in data` raises a
      type error on a number, boolean or null, and `data["turns"]` raises
      one on a list or string that holds "turns". Iterating a string or
      object field yields strings, which have no `.get`; iterating a number,
      boolean or null raises a type error. */
  function ScanFile(f: LogFile, found: bool): (r: Scan)
    ensures found ==> r.found
    ensures r.success ==> r.found && r.error.None?
  {
    match f
    case Unreadable => Scan(found, false, None)
    case Undecodable => Scan(found, false, Some(ValueError))
    case TopSequence(holdsTurns) => Scan(found, false, if holdsTurns then Some(TypeError) else None)
    case TopAtom => Scan(found, false, Some(TypeError))
    case Log(NoTurns) => Scan(found, false, None)
    case Log(TurnList(ts)) => ScanTurns(ts, found)
    case Log(TextOrObject(size)) => Scan(found, false, if size == 0 then None else Some(AttributeError))
    case Log(Scalar) => Scan(found, false, Some(TypeError))
  }

  /** The loop over a directory's logs, which stops at the first success.
      With `catchAll` every exception is swallowed and the next file is
      read, as `generate_item_blocked_data` does; without it an exception
      other than a read error ends the scan, as in `analyze_experiments`. */
  function ScanFiles(fs: seq<LogFile>, found: bool, catchAll: bool): (r: Scan)
    ensures found ==> r.found
    ensures r.success ==> r.found && r.error.None?
    ensures catchAll ==> r.error.None?
  {
    if |fs| == 0 then Scan(found, false, None)
    else
      var s := ScanFile(fs[0], found);
      if s.success then s
      else if s.error.Some? && !catchAll then s
      else ScanFiles(fs[1..], s.found, catchAll)
  }

  /** A log the scan reads without raising. */
  predicate Clean(f: LogFile)
  {
    match f
    case Unreadable => true
    case Undecodable => false
    case TopSequence(holdsTurns) => !holdsTurns
    case TopAtom => false
    case Log(NoTurns) => true
    case Log(TurnList(ts)) => forall j | 0 <= j < |ts| :: ts[j].Turn?
    case Log(TextOrObject(size)) => size == 0
    case Log(Scalar) => false
  }

  lemma {:induction false} ScanTurnsClean(ts: seq<Turn>, found: bool)
    requires forall j | 0 <= j < |ts| :: ts[j].Turn?
    ensures ScanTurns(ts, found).error.None?
    ensures ScanTurns(ts, found).success <==> exists j | 0 <= j < |ts| :: Mentions(ts[j], FullScore)
    ensures ScanTurns(ts, found).found <==> found || exists j | 0 <= j < |ts| :: Mentions(ts[j], ScoreMarker)
  {
    if |ts| > 0 {
      MentionsPrefix(ts[0], ScoreMarker, "1");
      ScanTurnsClean(ts[1..], found || Mentions(ts[0], ScoreMarker));
      assert forall j | 0 < j < |ts| :: ts[j] == ts[1..][j - 1];
      if Mentions(ts[0], FullScore) {
        assert Mentions(ts[0], ScoreMarker);
      } else {
        assert forall j | 1 <= j < |ts| :: ts[1..][j - 1] == ts[j];
      }
    }
  }

  /** When no log raises, the scan finds a score exactly when some system
      turn reports one, and a success exactly when some system turn reports
      full marks, whichever file it is in. */
  lemma {:induction false} ScanFilesClean(fs: seq<LogFile>, found: bool, catchAll: bool)
    requires forall i | 0 <= i < |fs| :: Clean(fs[i])
    ensures ScanFiles(fs, found, catchAll).error.None?
    ensures ScanFiles(fs, found, catchAll).success <==> AnyMentions(fs, FullScore)
    ensures ScanFiles(fs, found, catchAll).found <==> found || AnyMentions(fs, ScoreMarker)
  {
    if |fs| > 0 {
      var ts := ListedTurns(fs[0]);
      ScanTurnsClean(ts, found);
      var s := ScanFile(fs[0], found);
      assert s == ScanTurns(ts, found) || (s == Scan(found, false, None) && ts == []);
      ScanFilesClean(fs[1..], s.found, catchAll);
      AnyMentionsCons(fs, FullScore);
      AnyMentionsCons(fs, ScoreMarker);
      if s.success {
        assert Mentions(ts[0], ScoreMarker) || exists j | 0 <= j < |ts| :: Mentions(ts[j], ScoreMarker) by {
          var j :| 0 <= j < |ts| && Mentions(ts[j], FullScore);
          MentionsPrefix(ts[j], ScoreMarker, "1");
        }
      }
    }
  }

  /** Some file mentions a marker iff the first does or one of the rest. */
  lemma AnyMentionsCons(fs: seq<LogFile>, marker: string)
    requires |fs| > 0
    ensures AnyMentions(fs, marker) <==>
      (exists j | 0 <= j < |ListedTurns(fs[0])| :: Mentions(ListedTurns(fs[0])[j], marker)) || AnyMentions(fs[1..], marker)
  {
    if AnyMentions(fs, marker) {
      var i, j :| 0 <= i < |fs| && 0 <= j < |ListedTurns(fs[i])| && Mentions(ListedTurns(fs[i])[j], marker);
      if i > 0 {
        assert fs[1..][i - 1] == fs[i];
      }
    }
    if AnyMentions(fs[1..], marker) {
      var i, j :| 0 <= i < |fs[1..]| && 0 <= j < |ListedTurns(fs[1..][i])| && Mentions(ListedTurns(fs[1..][i])[j], marker);
      assert fs[1..][i] == fs[i + 1];
    }
  }

  // ---------------------------------------------------------------------
  // Success and total counters
  // ---------------------------------------------------------------------

  /** One `{"success": s, "total": t}` counter. */
  datatype Record = Record(success: nat, total: nat)

  function Plus(a: Record, b: Record): Record
  {
    Record(a.success + b.success, a.total + b.total)
  }

  /** The counter under `k`, a fresh zero counter when there is none, as a
      `defaultdict` hands out. */
  function RecordOf(d: Dict<Record>, k: string): Record
  {
    match Get(d, k)
    case None => Record(0, 0)
    case Some(r) => r
  }

  /** Every counter has no more successes than tries. */
  predicate Sound(d: Dict<Record>)
  {
    forall i | 0 <= i < |d| :: d[i].1.success <= d[i].1.total
  }

  lemma SoundRecordOf(d: Dict<Record>, k: string)
    requires Sound(d)
    ensures RecordOf(d, k).success <= RecordOf(d, k).total
  {
    if Get(d, k).Some? {
      var i :| 0 <= i < |d| && d[i] == (k, Get(d, k).value);
    }
  }

  /** Storing a sound counter keeps the dictionary sound. */
  lemma {:induction false} StoreSound(d: Dict<Record>, k: string, v: Record)
    requires Sound(d) && v.success <= v.total
    ensures Sound(Store(d, k, v))
  {
    if |d| > 0 {
      var r := Store(d, k, v);
      if d[0].0 == k {
        assert r == [(k, v)] + d[1..];
        assert forall i | 1 <= i < |r| :: r[i] == d[i];
      } else {
        assert Sound(d[1..]) by {
          assert forall i | 0 <= i < |d[1..]| :: d[1..][i] == d[i + 1];
        }
        StoreSound(d[1..], k, v);
        assert r == [d[0]] + Store(d[1..], k, v);
        assert forall i | 1 <= i < |r| :: r[i] == Store(d[1..], k, v)[i - 1];
      }
    }
  }

  /** `d[k]["total"] += 1`, and `d[k]["success"] += 1` on a success. */
  function CountOne(d: Dict<Record>, k: string, success: bool): (r: Dict<Record>)
    ensures forall k' :: RecordOf(r, k') == if k' == k then Plus(RecordOf(d, k), Tries(1, success)) else RecordOf(d, k')
  {
    var v := Plus(RecordOf(d, k), Tries(1, success));
    var r := Store(d, k, v);
    forall k' ensures RecordOf(r, k') == if k' == k then v else RecordOf(d, k') {
      StoreGet(d, k, v, k');
    }
    r
  }

  /** Counting keeps every counter sound. */
  lemma CountOneSound(d: Dict<Record>, k: string, success: bool)
    requires Sound(d) && DistinctKeys(d)
    ensures Sound(CountOne(d, k, success)) && DistinctKeys(CountOne(d, k, success))
    ensures Keys(CountOne(d, k, success)) == Keys(d) + {k}
  {
    SoundRecordOf(d, k);
    StoreSound(d, k, Plus(RecordOf(d, k), Tries(1, success)));
  }

  /** `for key in keys: d[key] ...`: one count per occurrence of a key. */
  function CountAll(d: Dict<Record>, keys: seq<string>, success: bool): Dict<Record>
    decreases |keys|
  {
    if |keys| == 0 then d
    else
      CountAll(CountOne(d, keys[0], success), keys[1..], success)
  }

  lemma {:induction false} CountAllSound(d: Dict<Record>, keys: seq<string>, success: bool)
    requires Sound(d) && DistinctKeys(d)
    ensures Sound(CountAll(d, keys, success)) && DistinctKeys(CountAll(d, keys, success))
    decreases |keys|
  {
    if |keys| > 0 {
      CountOneSound(d, keys[0], success);
      CountAllSound(CountOne(d, keys[0], success), keys[1..], success);
    }
  }

  /** `n` tries, all successes or none. */
  function Tries(n: nat, success: bool): Record
  {
    Record(if success then n else 0, n)
  }

  /** Each key is counted once per occurrence in `keys`. */
  lemma {:induction false} CountAllRecord(d: Dict<Record>, keys: seq<string>, success: bool, k: string)
    ensures RecordOf(CountAll(d, keys, success), k) == Plus(RecordOf(d, k), Tries(multiset(keys)[k], success))
    decreases |keys|
  {
    if |keys| > 0 {
      var d1 := CountOne(d, keys[0], success);
      var here := if k == keys[0] then 1 else 0;
      assert RecordOf(d1, k) == Plus(RecordOf(d, k), Tries(here, success));
      CountAllRecord(d1, keys[1..], success, k);
      FirstOccurrence(keys, k);
      PlusTries(RecordOf(d, k), here, multiset(keys[1..])[k], success);
    }
  }

  lemma PlusTries(r: Record, a: nat, b: nat, success: bool)
    ensures Plus(Plus(r, Tries(a, success)), Tries(b, success)) == Plus(r, Tries(a + b, success))
  {
  }

  lemma FirstOccurrence(keys: seq<string>, k: string)
    requires |keys| > 0
    ensures multiset(keys)[k] == (if k == keys[0] then 1 else 0) + multiset(keys[1..])[k]
  {
    assert keys == [keys[0]] + keys[1..];
  }

  /** The sum of all counters. */
  function RecordSum(d: Dict<Record>): Record
  {
    if |d| == 0 then Record(0, 0) else Plus(d[0].1, RecordSum(d[1..]))
  }

  /** Overwriting one counter changes the sum by the difference. */
  lemma {:induction false} StoreSum(d: Dict<Record>, k: string, v: Record)
    ensures Plus(RecordSum(Store(d, k, v)), RecordOf(d, k)) == Plus(RecordSum(d), v)
  {
    if |d| > 0 {
      var r := Store(d, k, v);
      StoreCons(d, k, v);
      assert RecordSum(r) == Plus(r[0].1, RecordSum(r[1..]));
      assert RecordSum(d) == Plus(d[0].1, RecordSum(d[1..]));
      if d[0].0 == k {
        assert RecordOf(d, k) == d[0].1;
      } else {
        var s' := RecordSum(Store(d[1..], k, v));
        StoreSum(d[1..], k, v);
        assert RecordOf(d, k) == RecordOf(d[1..], k);
        PlusShift(d[0].1, s', RecordOf(d, k), RecordSum(d[1..]), v);
      }
    }
  }

  lemma PlusShift(a: Record, s': Record, o: Record, s: Record, v: Record)
    requires Plus(s', o) == Plus(s, v)
    ensures Plus(Plus(a, s'), o) == Plus(Plus(a, s), v)
  {
  }

  /** Counting one try adds one try to the sum. */
  lemma CountOneSum(d: Dict<Record>, k: string, success: bool)
    ensures RecordSum(CountOne(d, k, success)) == Plus(RecordSum(d), Tries(1, success))
  {
    StoreSum(d, k, Plus(RecordOf(d, k), Tries(1, success)));
  }

  // ---------------------------------------------------------------------
  // analyze_experiments
  // ---------------------------------------------------------------------

  /** One entry of the experiments directory: its name, whether it is a
      directory, and its `.json` files in listing order. */
  datatype ExpDir = ExpDir(name: string, isDir: bool, files: seq<LogFile>)

  /** A directory of a cooking task. */
  predicate Eligible(d: ExpDir)
  {
    d.isDir && StartsWith(d.name, IdPrefix)
  }

  /** The scan `analyze_experiments` makes of a directory. */
  function Verdict(d: ExpDir): Scan
  {
    ScanFiles(d.files, false, false)
  }

  predicate Crashes(d: ExpDir) { Eligible(d) && Verdict(d).error.Some? }

  predicate Counted(d: ExpDir) { Eligible(d) && Verdict(d).error.None? && Verdict(d).found }

  predicate Ignored(d: ExpDir) { Eligible(d) && Verdict(d).error.None? && !Verdict(d).found }

  /** The four results of `analyze_experiments`. */
  datatype Analysis = Analysis(blocked: Dict<Record>, items: Dict<Record>, allItems: set<string>, ignored: seq<string>)

  /** Both counter tables are proper dictionaries with sound counters. */
  predicate WellKept(a: Analysis)
  {
    DistinctKeys(a.blocked) && DistinctKeys(a.items) && Sound(a.blocked) && Sound(a.items)
  }

  /** The body of the loop for one eligible directory. */
  function Visit(a: Analysis, d: ExpDir): (r: Outcome<Analysis>)
    ensures r.Raises? <==> Verdict(d).error.Some?
  {
    var items := ExtractItems(d.name);
    var all := a.allItems + set x | x in items;
    var s := Verdict(d);
    if s.error.Some? then Raises(s.error.value)
    else if !s.found then Returns(a.(allItems := all, ignored := a.ignored + [d.name]))
    else
      Returns(Analysis(CountOne(a.blocked, BlockedKey(d.name), s.success), CountAll(a.items, items, s.success), all, a.ignored))
  }

  /** Every visited directory adds its dishes to the dish set. */
  lemma VisitAllItems(a: Analysis, d: ExpDir)
    ensures Visit(a, d).Returns? ==> forall x :: x in Visit(a, d).value.allItems <==> x in a.allItems || x in ExtractItems(d.name)
  {
  }

  /** A visited directory is appended to the ignored list exactly when its
      logs hold no score message. */
  lemma VisitIgnored(a: Analysis, d: ExpDir)
    ensures Visit(a, d).Returns? ==> Visit(a, d).value.ignored == if Verdict(d).found then a.ignored else a.ignored + [d.name]
  {
  }

  lemma VisitWellKept(a: Analysis, d: ExpDir)
    requires WellKept(a)
    ensures Visit(a, d).Returns? ==> WellKept(Visit(a, d).value)
  {
    if Verdict(d).error.None? && Verdict(d).found {
      CountOneSound(a.blocked, BlockedKey(d.name), Verdict(d).success);
      CountAllSound(a.items, ExtractItems(d.name), Verdict(d).success);
    }
  }

  /** `analyze_experiments(root_dir, model_name)` over the directory listing. */
  function AnalyzeExperiments(dirs: seq<ExpDir>): Outcome<Analysis>
  {
    if |dirs| == 0 then Returns(Analysis([], [], {}, []))
    else
      match AnalyzeExperiments(dirs[..|dirs| - 1])
      case Raises(e) => Raises(e)
      case Returns(a) => if Eligible(dirs[|dirs| - 1]) then Visit(a, dirs[|dirs| - 1]) else Returns(a)
  }

  /** The counter tables stay proper dictionaries of sound counters. */
  lemma {:induction false} AnalyzeWellKept(dirs: seq<ExpDir>)
    ensures AnalyzeExperiments(dirs).Returns? ==> WellKept(AnalyzeExperiments(dirs).value)
  {
    if |dirs| > 0 {
      var n := |dirs| - 1;
      AnalyzeWellKept(dirs[..n]);
      match AnalyzeExperiments(dirs[..n])
      case Raises(_) =>
      case Returns(a) =>
        if Eligible(dirs[n]) {
          VisitWellKept(a, dirs[n]);
        }
    }
  }

  /** `dirs[i]` is the first cooking directory whose logs break the loop. */
  predicate FirstCrash(dirs: seq<ExpDir>, i: int)
  {
    0 <= i < |dirs| && Crashes(dirs[i]) && forall j | 0 <= j < i :: !Crashes(dirs[j])
  }

  /** The index of the first cooking directory whose logs break the loop. */
  function CrashIndex(dirs: seq<ExpDir>): (i: Option<nat>)
    ensures i.Some? ==> i.value < |dirs| && Crashes(dirs[i.value])
  {
    if |dirs| == 0 then None
    else
      var n := |dirs| - 1;
      match CrashIndex(dirs[..n])
      case Some(i) => Some(i)
      case None => if Crashes(dirs[n]) then Some(n) else None
  }

  lemma {:induction false} CrashIndexFirst(dirs: seq<ExpDir>)
    ensures CrashIndex(dirs).None? ==> forall j | 0 <= j < |dirs| :: !Crashes(dirs[j])
    ensures CrashIndex(dirs).Some? ==> FirstCrash(dirs, CrashIndex(dirs).value)
  {
    if |dirs| > 0 {
      var n := |dirs| - 1;
      var init := dirs[..n];
      CrashIndexFirst(init);
      assert forall j | 0 <= j < n :: init[j] == dirs[j];
    }
  }

  /** The loop raises at the first crashing directory, with its error. */
  lemma {:induction false} AnalyzeCrashIndex(dirs: seq<ExpDir>)
    ensures AnalyzeExperiments(dirs).Raises? <==> CrashIndex(dirs).Some?
    ensures AnalyzeExperiments(dirs).Raises? ==> Verdict(dirs[CrashIndex(dirs).value]).error == Some(AnalyzeExperiments(dirs).error)
  {
    if |dirs| > 0 {
      var n := |dirs| - 1;
      var init := dirs[..n];
      AnalyzeCrashIndex(init);
      if CrashIndex(init).Some? {
        assert dirs[CrashIndex(init).value] == init[CrashIndex(init).value];
      }
    }
  }

  /** The analysis raises exactly when some cooking directory holds a log
      that breaks the turn loop, and then with the first such log's error. */
  lemma AnalyzeRaises(dirs: seq<ExpDir>)
    ensures AnalyzeExperiments(dirs).Raises? <==> exists i | 0 <= i < |dirs| :: Crashes(dirs[i])
    ensures AnalyzeExperiments(dirs).Raises? ==> exists i :: FirstCrash(dirs, i) && Verdict(dirs[i]).error == Some(AnalyzeExperiments(dirs).error)
  {
    AnalyzeCrashIndex(dirs);
    CrashIndexFirst(dirs);
  }

  /** Only a log that cannot be opened or parsed is skipped. A cooking
      directory whose first log holds undecodable bytes, or is a top-level
      number, boolean or null, or a top-level list or string holding
      "turns", crashes; a lone such log makes the analysis raise. */
  lemma FirstLogCrashes(d: ExpDir)
    ensures Eligible(d) && |d.files| > 0 && d.files[0].Undecodable? ==>
      Crashes(d) && Verdict(d).error == Some(ValueError)
    ensures Eligible(d) && |d.files| > 0 && (d.files[0].TopAtom? || d.files[0] == TopSequence(true)) ==>
      Crashes(d) && Verdict(d).error == Some(TypeError)
    ensures Eligible(d) && |d.files| > 0 && d.files[0].Unreadable? ==>
      Verdict(d) == Verdict(d.(files := d.files[1..]))
    ensures Eligible(d) && d.files == [Undecodable] ==> AnalyzeExperiments([d]) == Raises(ValueError)
  {
  }

  /** Counted directories with key `k`, and how many of them succeeded. */
  function KeyTally(dirs: seq<ExpDir>, k: string): Record
  {
    if |dirs| == 0 then Record(0, 0)
    else
      var d := dirs[|dirs| - 1];
      Plus(KeyTally(dirs[..|dirs| - 1], k), if Counted(d) && BlockedKey(d.name) == k then Tries(1, Verdict(d).success) else Record(0, 0))
  }

  /** Occurrences of `item` in the names of counted directories, and how
      many of them are in successful ones. */
  function ItemTally(dirs: seq<ExpDir>, item: string): Record
  {
    if |dirs| == 0 then Record(0, 0)
    else
      var d := dirs[|dirs| - 1];
      Plus(ItemTally(dirs[..|dirs| - 1], item), if Counted(d) then Tries(multiset(ExtractItems(d.name))[item], Verdict(d).success) else Record(0, 0))
  }

  /** Counted directories, and how many of them succeeded. */
  function CountedTally(dirs: seq<ExpDir>): Record
  {
    if |dirs| == 0 then Record(0, 0)
    else
      var d := dirs[|dirs| - 1];
      Plus(CountedTally(dirs[..|dirs| - 1]), if Counted(d) then Tries(1, Verdict(d).success) else Record(0, 0))
  }

  /** The number of cooking directories. */
  function Eligibles(dirs: seq<ExpDir>): nat
  {
    if |dirs| == 0 then 0
    else Eligibles(dirs[..|dirs| - 1]) + if Eligible(dirs[|dirs| - 1]) then 1 else 0
  }

  /** Each blocked key's counter holds the counted directories with that key
      and their successes. */
  lemma {:induction false} AnalyzeBlocked(dirs: seq<ExpDir>, k: string)
    ensures AnalyzeExperiments(dirs).Returns? ==> RecordOf(AnalyzeExperiments(dirs).value.blocked, k) == KeyTally(dirs, k)
  {
    if |dirs| > 0 {
      AnalyzeBlocked(dirs[..|dirs| - 1], k);
    }
  }

  /** Each dish's counter holds its occurrences in counted directories'
      names, and those in successful ones. */
  lemma {:induction false} AnalyzeItems(dirs: seq<ExpDir>, item: string)
    ensures AnalyzeExperiments(dirs).Returns? ==> RecordOf(AnalyzeExperiments(dirs).value.items, item) == ItemTally(dirs, item)
  {
    if |dirs| > 0 {
      var d := dirs[|dirs| - 1];
      AnalyzeItems(dirs[..|dirs| - 1], item);
      match AnalyzeExperiments(dirs[..|dirs| - 1])
      case Raises(_) =>
      case Returns(a) =>
        if Counted(d) {
          CountAllRecord(a.items, ExtractItems(d.name), Verdict(d).success, item);
        }
    }
  }

  /** Every cooking directory is either ignored or counted once: the
      blocked counters add up to the counted directories, and the ignored
      list holds the rest. */
  lemma {:induction false} AnalyzeTotals(dirs: seq<ExpDir>)
    ensures AnalyzeExperiments(dirs).Returns? ==>
      && RecordSum(AnalyzeExperiments(dirs).value.blocked) == CountedTally(dirs)
      && CountedTally(dirs).total + |AnalyzeExperiments(dirs).value.ignored| == Eligibles(dirs)
  {
    if |dirs| > 0 {
      var n := |dirs| - 1;
      var d, init := dirs[n], dirs[..n];
      AnalyzeTotals(init);
      match AnalyzeExperiments(init)
      case Raises(_) =>
      case Returns(a) =>
        var r := AnalyzeExperiments(dirs);
        if !Eligible(d) {
          assert r == Returns(a);
        } else if Verdict(d).error.Some? {
          assert r.Raises?;
        } else if !Verdict(d).found {
          assert r.value.blocked == a.blocked && r.value.ignored == a.ignored + [d.name];
        } else {
          var key, success := BlockedKey(d.name), Verdict(d).success;
          assert r.value.blocked == CountOne(a.blocked, key, success) && r.value.ignored == a.ignored;
          CountOneSum(a.blocked, key, success);
        }
    }
  }

  /** The ignored list names exactly the cooking directories without a
      score message, in listing order. */
  lemma {:induction false} AnalyzeIgnored(dirs: seq<ExpDir>)
    ensures AnalyzeExperiments(dirs).Returns? ==> forall x ::
      x in AnalyzeExperiments(dirs).value.ignored <==> exists i | 0 <= i < |dirs| :: Ignored(dirs[i]) && dirs[i].name == x
  {
    if |dirs| > 0 {
      var n := |dirs| - 1;
      var d, init := dirs[n], dirs[..n];
      AnalyzeIgnored(init);
      assert forall j | 0 <= j < n :: init[j] == dirs[j];
      match AnalyzeExperiments(init)
      case Raises(_) =>
      case Returns(a) =>
        var r := AnalyzeExperiments(dirs);
        if !Eligible(d) {
          assert r == Returns(a);
        } else {
          assert r == Visit(a, d);
          VisitIgnored(a, d);
        }
    }
  }

  /** `d` is a cooking directory whose name lists the dish `x`. */
  predicate HasDish(d: ExpDir, x: string)
  {
    Eligible(d) && x in ExtractItems(d.name)
  }

  /** Some cooking directory among `dirs` names the dish `x`. */
  predicate NamesDish(dirs: seq<ExpDir>, x: string)
  {
    exists i | 0 <= i < |dirs| :: HasDish(dirs[i], x)
  }

  lemma NamesDishSnoc(dirs: seq<ExpDir>, x: string)
    requires |dirs| > 0
    ensures NamesDish(dirs, x) <==> NamesDish(dirs[..|dirs| - 1], x) || HasDish(dirs[|dirs| - 1], x)
  {
    var init, last := dirs[..|dirs| - 1], dirs[|dirs| - 1];
    assert dirs == init + [last];
    ExistsSnoc(init, last, d => HasDish(d, x));
  }

  lemma ExistsSnoc<T>(init: seq<T>, last: T, p: T -> bool)
    ensures (exists i | 0 <= i < |init + [last]| :: p((init + [last])[i])) <==>
      (exists i | 0 <= i < |init| :: p(init[i])) || p(last)
  {
    assert forall i | 0 <= i < |init| :: (init + [last])[i] == init[i];
    assert (init + [last])[|init|] == last;
  }

  /** The dish set gathers the dishes of every cooking directory, ignored
      ones included. */
  lemma {:induction false} AnalyzeAllItems(dirs: seq<ExpDir>)
    ensures AnalyzeExperiments(dirs).Returns? ==> forall x ::
      x in AnalyzeExperiments(dirs).value.allItems <==> NamesDish(dirs, x)
  {
    if |dirs| > 0 {
      var n := |dirs| - 1;
      var d, init := dirs[n], dirs[..n];
      AnalyzeAllItems(init);
      match AnalyzeExperiments(init)
      case Raises(_) =>
      case Returns(a) =>
        var r := AnalyzeExperiments(dirs);
        if !Eligible(d) {
          assert r == Returns(a);
        } else {
          assert r == Visit(a, d);
          VisitAllItems(a, d);
        }
        if r.Returns? {
          forall x ensures x in r.value.allItems <==> NamesDish(dirs, x) {
            NamesDishSnoc(dirs, x);
          }
        }
    }
  }

  // ---------------------------------------------------------------------
  // The overall row of the comparison table
  // ---------------------------------------------------------------------

  /** The `model_totals` of one model: its counters summed over the table's
      keys, skipping the keys it has no counter for. */
  function OverallRow(keys: seq<string>, d: Dict<Record>): Record
  {
    if |keys| == 0 then Record(0, 0)
    else Plus(if keys[0] in Keys(d) then RecordOf(d, keys[0]) else Record(0, 0), OverallRow(keys[1..], d))
  }

  lemma {:induction false} WithoutAbsent(d: Dict<Record>, k: string)
    requires k !in Keys(d)
    ensures Without(d, k) == d
  {
    if |d| > 0 {
      KeysCons(d);
      WithoutAbsent(d[1..], k);
    }
  }

  /** Taking one key's counter out of a dictionary takes it out of the sum. */
  lemma {:induction false} WithoutSum(d: Dict<Record>, k: string)
    requires DistinctKeys(d)
    ensures RecordSum(d) == Plus(RecordOf(d, k), RecordSum(Without(d, k)))
  {
    if |d| > 0 {
      DistinctTail(d);
      KeysCons(d);
      if d[0].0 == k {
        WithoutAbsent(d[1..], k);
        assert RecordOf(d, k) == d[0].1;
      } else {
        WithoutSum(d[1..], k);
        assert Without(d, k) == [d[0]] + Without(d[1..], k);
        assert RecordOf(d, k) == RecordOf(d[1..], k);
      }
    }
  }

  lemma NoKeys(d: Dict<Record>)
    ensures Keys(d) == {} ==> d == []
  {
    if |d| > 0 {
      assert d[0].0 in Keys(d);
    }
  }

  /** The row only reads the counters of the listed keys. */
  lemma {:induction false} OverallRowSame(keys: seq<string>, d1: Dict<Record>, d2: Dict<Record>)
    requires forall i | 0 <= i < |keys| :: Get(d1, keys[i]) == Get(d2, keys[i])
    ensures OverallRow(keys, d1) == OverallRow(keys, d2)
  {
    if |keys| > 0 {
      OverallRowSame(keys[1..], d1, d2);
    }
  }

  predicate DistinctStrings(keys: seq<string>)
  {
    forall i, j | 0 <= i < j < |keys| :: keys[i] != keys[j]
  }

  /** The keys after the first list the keys of the table without it. */
  lemma KeysRest(keys: seq<string>, d: Dict<Record>)
    requires |keys| > 0 && DistinctStrings(keys)
    requires forall k | k in Keys(d) :: k in keys
    ensures DistinctStrings(keys[1..])
    ensures forall k | k in Keys(Without(d, keys[0])) :: k in keys[1..]
  {
    var k0, rest := keys[0], keys[1..];
    assert forall i | 0 <= i < |rest| :: rest[i] == keys[i + 1] && rest[i] != k0;
    forall k | k in Keys(Without(d, k0)) ensures k in rest {
      var i :| 0 <= i < |keys| && keys[i] == k;
      assert rest[i - 1] == k;
    }
  }

  /** Whatever order the table lists its keys in, as long as it lists each
      of a model's keys exactly once, the overall row is the sum of all that
      model's counters. */
  lemma {:induction false} OverallRowIsSum(keys: seq<string>, d: Dict<Record>)
    requires DistinctStrings(keys) && DistinctKeys(d)
    requires forall k | k in Keys(d) :: k in keys
    ensures OverallRow(keys, d) == RecordSum(d)
  {
    if |keys| == 0 {
      assert Keys(d) == {};
      NoKeys(d);
    } else {
      var k0, rest := keys[0], keys[1..];
      var d' := Without(d, k0);
      KeysRest(keys, d);
      OverallRowIsSum(rest, d');
      OverallRowSame(rest, d, d');
      WithoutSum(d, k0);
    }
  }

  /** The overall row of the blocked-key table counts every directory the
      analysis counted, and its successes. */
  lemma OverallRowCounts(dirs: seq<ExpDir>, keys: seq<string>)
    requires AnalyzeExperiments(dirs).Returns?
    requires DistinctStrings(keys)
    requires forall k | k in Keys(AnalyzeExperiments(dirs).value.blocked) :: k in keys
    ensures OverallRow(keys, AnalyzeExperiments(dirs).value.blocked) == CountedTally(dirs)
  {
    AnalyzeTotals(dirs);
    AnalyzeWellKept(dirs);
    OverallRowIsSum(keys, AnalyzeExperiments(dirs).value.blocked);
  }

  // ---------------------------------------------------------------------
  // generate_item_blocked_data
  // ---------------------------------------------------------------------

  /** The scan `generate_item_blocked_data` makes, which swallows every
      exception. */
  function LenientVerdict(d: ExpDir): (s: Scan)
    ensures s.error.None?
  {
    ScanFiles(d.files, false, true)
  }

  /** When every log of a directory reads cleanly, both scans agree. */
  lemma VerdictsAgree(d: ExpDir)
    requires forall i | 0 <= i < |d.files| :: Clean(d.files[i])
    ensures Verdict(d) == LenientVerdict(d)
  {
    ScanFilesClean(d.files, false, false);
    ScanFilesClean(d.files, false, true);
  }

  /** The per-dish table of per-key counters, and the ignored directories. */
  datatype ItemBlocked = ItemBlocked(data: Dict<Dict<Record>>, ignored: seq<string>)

  /** `data[item]`, empty when the dish has no table yet. */
  function Inner(data: Dict<Dict<Record>>, item: string): Dict<Record>
  {
    match Get(data, item)
    case None => []
    case Some(t) => t
  }

  /** `for item in items: data[item][key]` counts one try. */
  function CountNested(data: Dict<Dict<Record>>, items: seq<string>, key: string, success: bool): Dict<Dict<Record>>
    decreases |items|
  {
    if |items| == 0 then data
    else
      var item := items[0];
      CountNested(Store(data, item, CountOne(Inner(data, item), key, success)), items[1..], key, success)
  }

  /** Counting one dish adds one try to its counter under `key` only. */
  lemma CountNestedFirst(data: Dict<Dict<Record>>, first: string, key: string, success: bool, item: string, k: string)
    ensures RecordOf(Inner(Store(data, first, CountOne(Inner(data, first), key, success)), item), k)
      == Plus(RecordOf(Inner(data, item), k), if k == key then Tries(if item == first then 1 else 0, success) else Record(0, 0))
  {
    StoreGet(data, first, CountOne(Inner(data, first), key, success), item);
  }

  /** Each dish's counter under `key` gains one try per occurrence of the
      dish; every other counter stays. */
  lemma {:induction false} CountNestedRecord(data: Dict<Dict<Record>>, items: seq<string>, key: string, success: bool, item: string, k: string)
    ensures RecordOf(Inner(CountNested(data, items, key, success), item), k)
      == Plus(RecordOf(Inner(data, item), k), if k == key then Tries(multiset(items)[item], success) else Record(0, 0))
    decreases |items|
  {
    if |items| > 0 {
      var data1 := CountNestedUnfold(data, items, key, success);
      var r0, r1 := RecordOf(Inner(data, item), k), RecordOf(Inner(data1, item), k);
      var r2 := RecordOf(Inner(CountNested(data1, items[1..], key, success), item), k);
      var here, later := if item == items[0] then 1 else 0, multiset(items[1..])[item];
      assert r1 == Plus(r0, if k == key then Tries(here, success) else Record(0, 0)) by {
        CountNestedFirst(data, items[0], key, success, item, k);
      }
      assert r2 == Plus(r1, if k == key then Tries(later, success) else Record(0, 0)) by {
        CountNestedRecord(data1, items[1..], key, success, item, k);
      }
      assert multiset(items)[item] == here + later by {
        FirstOccurrence(items, item);
      }
      AddTries(r0, r1, r2, here, later, success, k == key);
    }
  }

  /** Counting the first dish, then the rest. */
  lemma CountNestedUnfold(data: Dict<Dict<Record>>, items: seq<string>, key: string, success: bool) returns (data1: Dict<Dict<Record>>)
    requires |items| > 0
    ensures data1 == Store(data, items[0], CountOne(Inner(data, items[0]), key, success))
    ensures CountNested(data, items, key, success) == CountNested(data1, items[1..], key, success)
  {
    data1 := Store(data, items[0], CountOne(Inner(data, items[0]), key, success));
  }

  /** Tries counted in two steps add up, when they are counted at all. */
  lemma AddTries(r0: Record, r1: Record, r2: Record, a: nat, b: nat, success: bool, counted: bool)
    requires r1 == Plus(r0, if counted then Tries(a, success) else Record(0, 0))
    requires r2 == Plus(r1, if counted then Tries(b, success) else Record(0, 0))
    ensures r2 == Plus(r0, if counted then Tries(a + b, success) else Record(0, 0))
  {
  }

  /** `generate_item_blocked_data(experiments_root)` over the listing. */
  function GenerateItemBlockedData(dirs: seq<ExpDir>): ItemBlocked
  {
    if |dirs| == 0 then ItemBlocked([], [])
    else
      var prev := GenerateItemBlockedData(dirs[..|dirs| - 1]);
      var d := dirs[|dirs| - 1];
      var s := LenientVerdict(d);
      if !Eligible(d) then prev
      else if !s.found then prev.(ignored := prev.ignored + [d.name])
      else prev.(data := CountNested(prev.data, ExtractItems(d.name), BlockedKey(d.name), s.success))
  }

  /** Occurrences of `item` in the names of directories with key `key` that
      the lenient scan counts, and those in successful ones. */
  function PairTally(dirs: seq<ExpDir>, item: string, key: string): Record
  {
    if |dirs| == 0 then Record(0, 0)
    else
      var d := dirs[|dirs| - 1];
      var s := LenientVerdict(d);
      Plus(PairTally(dirs[..|dirs| - 1], item, key),
        if Eligible(d) && s.found && BlockedKey(d.name) == key then Tries(multiset(ExtractItems(d.name))[item], s.success) else Record(0, 0))
  }

  /** Each (dish, key) counter holds the dish's occurrences in counted
      directories with that key, and those in successful ones. */
  lemma {:induction false} ItemBlockedCounts(dirs: seq<ExpDir>, item: string, key: string)
    ensures RecordOf(Inner(GenerateItemBlockedData(dirs).data, item), key) == PairTally(dirs, item, key)
  {
    if |dirs| > 0 {
      var d := dirs[|dirs| - 1];
      var prev := GenerateItemBlockedData(dirs[..|dirs| - 1]);
      ItemBlockedCounts(dirs[..|dirs| - 1], item, key);
      if Eligible(d) && LenientVerdict(d).found {
        CountNestedRecord(prev.data, ExtractItems(d.name), BlockedKey(d.name), LenientVerdict(d).success, item, key);
      }
    }
  }
}
