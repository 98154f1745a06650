/** What the crafting and results analyzers read from a log: whether some
    system turn announces a success, and the plan and depth categories a
    task folder's path places it in. */
module SuccessLogs {
  import opened Py
  import opened Text
  import opened Logs

  /** The message of a crafting task that ended in success. */
  const SuccessCode := "Task successful ended with code : 2"

  /** The older wording of a full-score message. */
  const ScoreInWords := "Task ended in score: 1"

  /** A system turn whose text holds one of the three success messages. */
  predicate Succeeds(t: Turn)
  {
    Mentions(t, SuccessCode) || Mentions(t, FullScore) || Mentions(t, ScoreInWords)
  }

  /** The loop over the turns from first to last: a success ends it with
      `True`, a turn that is not an object raises on `.get` (answered with
      `None`), and running out of turns gives `False`. */
  function ScanForward(ts: seq<Turn>): Option<bool>
  {
    if |ts| == 0 then Some(false)
    else if ts[0].NonObject? then None
    else if Succeeds(ts[0]) then Some(true)
    else ScanForward(ts[1..])
  }

  /** The same loop over `reversed(turns)`. */
  function ScanBackward(ts: seq<Turn>): Option<bool>
  {
    if |ts| == 0 then Some(false)
    else if ts[|ts| - 1].NonObject? then None
    else if Succeeds(ts[|ts| - 1]) then Some(true)
    else ScanBackward(ts[..|ts| - 1])
  }

  /** `analyze_json_file(path)`: every exception is caught as `None`, so a
      file that cannot be read or decoded, a top-level number, boolean or
      null, and a top-level list or string holding "turns" (which
      `data['turns']` cannot index) are `None`; a file whose `turns` is
      missing or not a list is `False`; otherwise the scan. */
  function FileSuccess(f: LogFile, backward: bool): Option<bool>
  {
    match f
    case Unreadable => None
    case Undecodable => None
    case TopAtom => None
    case TopSequence(holdsTurns) => if holdsTurns then None else Some(false)
    case Log(TurnList(ts)) => if backward then ScanBackward(ts) else ScanForward(ts)
    case Log(_) => Some(false)
  }

  /** Every turn is a JSON object. */
  predicate AllObjects(ts: seq<Turn>)
  {
    forall i | 0 <= i < |ts| :: ts[i].Turn?
  }

  /** Turn `i` succeeds and the forward scan reaches it: every turn before
      it is an object. */
  predicate ReachedForward(ts: seq<Turn>, i: int)
  {
    0 <= i < |ts| && Succeeds(ts[i]) && forall j | 0 <= j < i :: ts[j].Turn?
  }

  /** Turn `i` succeeds and the backward scan reaches it: every turn after
      it is an object. */
  predicate ReachedBackward(ts: seq<Turn>, i: int)
  {
    0 <= i < |ts| && Succeeds(ts[i]) && forall j | i < j < |ts| :: ts[j].Turn?
  }

  /** The forward scan succeeds exactly when it reaches a success turn. */
  lemma {:induction false} ScanForwardTrue(ts: seq<Turn>)
    ensures ScanForward(ts) == Some(true) <==> exists i :: ReachedForward(ts, i)
  {
    if |ts| > 0 && ts[0].Turn? && !Succeeds(ts[0]) {
      var rest := ts[1..];
      ScanForwardTrue(rest);
      forall i | ReachedForward(ts, i) ensures ReachedForward(rest, i - 1) {
        assert forall j | 0 <= j < i - 1 :: rest[j] == ts[j + 1];
      }
      forall i | ReachedForward(rest, i) ensures ReachedForward(ts, i + 1) {
        assert forall j | 0 < j < i + 1 :: ts[j] == rest[j - 1];
      }
    } else if |ts| > 0 && ts[0].Turn? {
      assert ReachedForward(ts, 0);
    }
  }

  /** The forward scan says `False` exactly when every turn is an object and
      none succeeds. */
  lemma {:induction false} ScanForwardFalse(ts: seq<Turn>)
    ensures ScanForward(ts) == Some(false) <==> AllObjects(ts) && forall i | 0 <= i < |ts| :: !Succeeds(ts[i])
  {
    if |ts| > 0 && ts[0].Turn? && !Succeeds(ts[0]) {
      var rest := ts[1..];
      ScanForwardFalse(rest);
      assert forall j | 0 < j < |ts| :: ts[j] == rest[j - 1];
    }
  }

  /** The backward scan succeeds exactly when it reaches a success turn. */
  lemma {:induction false} ScanBackwardTrue(ts: seq<Turn>)
    ensures ScanBackward(ts) == Some(true) <==> exists i :: ReachedBackward(ts, i)
  {
    var n := |ts| - 1;
    if |ts| > 0 && ts[n].Turn? && !Succeeds(ts[n]) {
      var init := ts[..n];
      ScanBackwardTrue(init);
      forall i | ReachedBackward(ts, i) ensures ReachedBackward(init, i) {
        assert forall j | i < j < n :: init[j] == ts[j];
      }
      forall i | ReachedBackward(init, i) ensures ReachedBackward(ts, i) {
        assert forall j | i < j < n :: ts[j] == init[j];
      }
    } else if |ts| > 0 && ts[n].Turn? {
      assert ReachedBackward(ts, n);
    }
  }

  /** The backward scan says `False` in the same case as the forward one. */
  lemma {:induction false} ScanBackwardFalse(ts: seq<Turn>)
    ensures ScanBackward(ts) == Some(false) <==> AllObjects(ts) && forall i | 0 <= i < |ts| :: !Succeeds(ts[i])
  {
    var n := |ts| - 1;
    if |ts| > 0 && ts[n].Turn? && !Succeeds(ts[n]) {
      var init := ts[..n];
      ScanBackwardFalse(init);
      assert forall j | 0 <= j < n :: ts[j] == init[j];
    }
  }

  /** On a log whose turns are all objects the two scan orders agree, so
      reading the turns backwards changes nothing there. */
  lemma ScansAgree(ts: seq<Turn>)
    requires AllObjects(ts)
    ensures ScanForward(ts) == ScanBackward(ts)
    ensures ScanForward(ts) == Some(exists i | 0 <= i < |ts| :: Succeeds(ts[i]))
  {
    ScanForwardTrue(ts);
    ScanForwardFalse(ts);
    ScanBackwardTrue(ts);
    ScanBackwardFalse(ts);
    assert forall i | 0 <= i < |ts| :: Succeeds(ts[i]) ==> ReachedForward(ts, i) && ReachedBackward(ts, i);
  }

  /** With a turn that is not an object the two orders can differ: a success
      after it is seen backwards but not forwards. */
  lemma ScansDiffer(t: Turn)
    requires Succeeds(t)
    ensures ScanForward([NonObject, t]) == None
    ensures ScanBackward([NonObject, t]) == Some(true)
  {
  }

  // ---------------------------------------------------------------------
  // Plan and depth categories
  // ---------------------------------------------------------------------

  /** The counters the analyzers keep besides the overall one. */
  datatype Category =
    | Missing | Base | BaseNoPlan | FullPlan | PartialPlan | NoPlan | HighDepth
    | Depth0 | Depth1 | Depth2

  /** `is_base(folder_path)`: a full plan at depth 0 with nothing missing. */
  predicate IsBase(path: string)
  {
    Contains(path, "full_plan") && Contains(path, "depth_0") && !Contains(path, "missing")
  }

  /** `base_without_plan(folder_path)`: no plan at depth 0 with something
      missing. */
  predicate BaseWithoutPlan(path: string)
  {
    Contains(path, "no_plan") && Contains(path, "depth_0") && Contains(path, "missing")
  }

  /** No folder is both a base folder and a base folder without a plan:
      one demands "missing" in the path and the other forbids it. */
  lemma BaseExclusive(path: string)
    ensures !(IsBase(path) && BaseWithoutPlan(path))
  {
  }

  /** The any-success loop of `extract_result` over the files' outcomes:
      `True` at the first truthy outcome, `None` counting as falsy. */
  function AnyWin(logs: seq<LogFile>, backward: bool): bool
  {
    |logs| > 0 && (FileSuccess(logs[0], backward) == Some(true) || AnyWin(logs[1..], backward))
  }

  lemma {:induction false} AnyWinMeans(logs: seq<LogFile>, backward: bool)
    ensures AnyWin(logs, backward) <==> exists i | 0 <= i < |logs| :: FileSuccess(logs[i], backward) == Some(true)
  {
    if |logs| > 0 {
      AnyWinMeans(logs[1..], backward);
      assert forall i | 1 <= i < |logs| :: logs[i] == logs[1..][i - 1];
    }
  }
}
