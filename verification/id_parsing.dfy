/** Reading a cooking task's dishes and blocked-agent count back out of its
    experiment directory name, which is the task ID. The regular expressions
    of the analysis script are written out as explicit scanners. */
module IdParsing {
  import opened Py
  import opened Text
  import opened Dict
  import opened Sorting
  import opened HellsKitchen

  /** `[0-9_]` */
  predicate IsCutChar(c: char) { IsDigit(c) || c == '_' }

  /** `marker[0-9_]+$` matches at `i`: the marker, then at least one digit or
      underscore and nothing else up to the end. */
  predicate CutAt(s: string, marker: string, i: int)
  {
    OccursAt(s, marker, i) && i + |marker| < |s| && forall k | i + |marker| <= k < |s| :: IsCutChar(s[k])
  }

  /** The leftmost match of `marker[0-9_]+$` at or after `from`, as
      `re.search` and `re.sub` find it. */
  function FirstCut(s: string, marker: string, from: nat): (r: Option<nat>)
    ensures r.Some? ==> from <= r.value && CutAt(s, marker, r.value)
    ensures forall i | from <= i && (r.None? || i < r.value) :: !CutAt(s, marker, i)
    decreases |s| - from
  {
    if from >= |s| then None
    else if CutAt(s, marker, from) then Some(from)
    else FirstCut(s, marker, from + 1)
  }

  /** A marker that starts with two different characters and has a letter
      just before its end matches `marker[0-9_]+$` in at most one place. */
  lemma CutUnique(s: string, m: string, i: int, j: int)
    requires |m| >= 2 && m[0] != m[1] && !IsCutChar(m[|m| - 2])
    requires CutAt(s, m, i) && CutAt(s, m, j)
    ensures i == j
  {
    assert forall k | i <= k < i + |m| :: s[k] == m[k - i];
    assert forall k | j <= k < j + |m| :: s[k] == m[k - j];
  }

  /** When `marker[0-9_]+$` matches at `j`, that is the leftmost match. */
  lemma FirstCutIs(s: string, m: string, j: nat)
    requires |m| >= 2 && m[0] != m[1] && !IsCutChar(m[|m| - 2])
    requires CutAt(s, m, j)
    ensures FirstCut(s, m, 0) == Some(j)
  {
    var r := FirstCut(s, m, 0);
    if r.Some? {
      CutUnique(s, m, r.value, j);
    }
  }

  /** A string ending in a letter has no match of `marker[0-9_]+$`. */
  lemma NoCutBeforeLetter(s: string, m: string)
    requires |s| > 0 && IsLetter(s[|s| - 1])
    ensures FirstCut(s, m, 0) == None
  {
  }

  /** `re.sub(r'^multiagent_cooking_', '', s)` */
  function StripPrefix(s: string): (r: string)
    ensures StartsWith(s, IdPrefix) ==> s == IdPrefix + r
    ensures !StartsWith(s, IdPrefix) ==> r == s
  {
    if StartsWith(s, IdPrefix) then
      assert s == s[..|IdPrefix|] + s[|IdPrefix|..];
      s[|IdPrefix|..]
    else s
  }

  /** `re.sub(r'_blocked_access_[0-9_]+$', '', s)` */
  function StripBlocked(s: string): (r: string)
    ensures StartsWith(s, r)
    ensures FirstCut(s, BlockedMarker, 0).None? ==> r == s
    ensures FirstCut(s, BlockedMarker, 0).Some? ==> |r| == FirstCut(s, BlockedMarker, 0).value
  {
    match FirstCut(s, BlockedMarker, 0)
    case None => s
    case Some(i) => s[..i]
  }

  /** Length of the leading run of `[a-zA-Z_]`. */
  function NameRun(s: string): (n: nat)
    ensures n <= |s| && (forall k | 0 <= k < n :: IsNameChar(s[k])) && (n < |s| ==> !IsNameChar(s[n]))
  {
    if |s| == 0 || !IsNameChar(s[0]) then 0 else 1 + NameRun(s[1..])
  }

  /** `([0-9]+)_([a-zA-Z_]+)` matches at the start of `s`. Backtracking into
      the digits cannot help: a shorter digit run is followed by a digit. */
  predicate MatchHere(s: string)
  {
    var q := DigitRun(s);
    0 < q && q + 1 < |s| && s[q] == '_' && IsNameChar(s[q + 1])
  }

  /** The second groups of `re.finditer(r'([0-9]+)_([a-zA-Z_]+)', s)`, each
      with its trailing underscores removed. */
  function Items(s: string): (items: seq<string>)
    ensures forall i | 0 <= i < |items| :: |items[i]| == 0 || items[i][|items[i]| - 1] != '_'
    decreases |s|
  {
    if |s| == 0 then []
    else if MatchHere(s) then
      var rest := s[DigitRun(s) + 1..];
      var n := NameRun(rest);
      [TrimEnd(rest[..n], '_')] + Items(rest[n..])
    else Items(s[1..])
  }

  /** `extract_cooking_items(exp_dir)` */
  function ExtractItems(dir: string): seq<string>
  {
    Items(StripBlocked(StripPrefix(dir)))
  }

  const KeyMarker := "blocked_access_"

  /** `f"{n} agent(s)"` */
  function AgentsKey(n: nat): (key: string)
    ensures EndsWith(key, " agent(s)") && StartsWith(key, NatToString(n))
  {
    var key := NatToString(n) + " agent(s)";
    assert key[|key| - |" agent(s)"|..] == " agent(s)";
    key
  }

  /** The blocked key of a directory: the number of `_`-separated parts
      after a trailing `blocked_access_`, or none when the name has no such
      ending. */
  function BlockedKey(dir: string): (key: string)
    ensures FirstCut(dir, KeyMarker, 0).None? ==> key == AgentsKey(0)
    ensures EndsWith(key, " agent(s)")
  {
    match FirstCut(dir, KeyMarker, 0)
    case None => AgentsKey(0)
    case Some(i) => AgentsKey(PartCount(dir[i + |KeyMarker|..], '_'))
  }

  // ---------------------------------------------------------------------
  // Reading back a generated ID
  // ---------------------------------------------------------------------

  /** A dish name the scanner reads back whole: letters and underscores,
      ending in a letter. */
  predicate WellNamed(name: string)
  {
    |name| > 0 && (forall k | 0 <= k < |name| :: IsNameChar(name[k])) && IsLetter(name[|name| - 1])
  }

  predicate WellFormedTarget(target: Dict<int>)
  {
    forall i | 0 <= i < |target| :: WellNamed(target[i].0) && target[i].1 >= 0
  }

  /** An agent key as the generator writes it: a decimal number. */
  predicate IsAgentKey(b: string) { |b| > 0 && AllDigits(b) }

  lemma NameRunOf(a: string, t: string)
    requires (forall k | 0 <= k < |a| :: IsNameChar(a[k])) && (|t| == 0 || !IsNameChar(t[0]))
    ensures NameRun(a + t) == |a|
  {
    assert forall k | 0 <= k < |a| :: (a + t)[k] == a[k];
    assert |t| > 0 ==> (a + t)[|a|] == t[0];
  }

  lemma TrimWellNamed(name: string)
    requires WellNamed(name)
    ensures TrimEnd(name, '_') == name && TrimEnd(name + "_", '_') == name
  {
    var t := name + "_";
    assert t[..|t| - 1] == name;
  }

  /** A count, `_`, and a run starting with a name character: the scanner
      reads the run's name and resumes after it. */
  lemma ItemsUnfold(count: nat, rest: string)
    requires |rest| > 0 && IsNameChar(rest[0])
    ensures Items(NatToString(count) + "_" + rest) == [TrimEnd(rest[..NameRun(rest)], '_')] + Items(rest[NameRun(rest)..])
  {
    var digits := NatToString(count);
    var s := digits + "_" + rest;
    assert s == digits + ("_" + rest);
    DigitRunOf(digits, "_" + rest);
    assert s[|digits| + 1..] == rest;
    assert s[|digits| + 1] == rest[0];
    assert MatchHere(s);
  }

  lemma ItemsLast(count: nat, name: string)
    requires WellNamed(name)
    ensures Items(NatToString(count) + "_" + name) == [name]
  {
    TrimWellNamed(name);
    ItemsUnfold(count, name);
    NameRunOf(name, "");
    assert name + "" == name;
    assert name[..|name|] == name && name[|name|..] == "";
  }

  lemma ItemsMore(count: nat, name: string, tail: string)
    requires WellNamed(name)
    requires |tail| > 0 && IsDigit(tail[0])
    ensures Items(NatToString(count) + "_" + name + ("_" + tail)) == [name] + Items(tail)
  {
    TrimWellNamed(name);
    var rest := (name + "_") + tail;
    assert name + ("_" + tail) == rest;
    assert NatToString(count) + "_" + name + ("_" + tail) == NatToString(count) + "_" + rest;
    ItemsUnfold(count, rest);
    assert forall k | 0 <= k < |name + "_"| :: IsNameChar((name + "_")[k]);
    NameRunOf(name + "_", tail);
    assert rest[..|name| + 1] == name + "_";
    assert rest[|name| + 1..] == tail;
  }

  /** One `count_item` entry followed by the rest of the quantities: the
      scanner yields the dish and resumes at the next count. */
  lemma ItemsStep(count: nat, name: string, tail: string)
    requires WellNamed(name)
    requires |tail| == 0 || IsDigit(tail[0])
    ensures Items(NatToString(count) + "_" + name + (if |tail| == 0 then "" else "_" + tail)) == [name] + Items(tail)
  {
    if |tail| == 0 {
      ItemsLast(count, name);
      assert NatToString(count) + "_" + name + "" == NatToString(count) + "_" + name;
    } else {
      ItemsMore(count, name, tail);
    }
  }

  /** The tail of a well-formed target is well formed, and its quantities
      are the tail of the quantities. */
  lemma QuantitiesTail(pairs: Dict<int>)
    requires WellFormedTarget(pairs) && |pairs| > 0
    ensures WellFormedTarget(pairs[1..]) && Quantities(pairs)[1..] == Quantities(pairs[1..])
    ensures KeyList(pairs) == [pairs[0].0] + KeyList(pairs[1..])
  {
    TailAt(pairs);
    assert WellFormedTarget(pairs[1..]);
    QuantitiesTailEq(pairs);
  }

  lemma TailAt(pairs: Dict<int>)
    requires |pairs| > 0
    ensures forall i | 0 <= i < |pairs| - 1 :: pairs[1..][i] == pairs[i + 1]
  {
  }

  lemma QuantitiesTailEq(pairs: Dict<int>)
    requires |pairs| > 0
    ensures Quantities(pairs)[1..] == Quantities(pairs[1..])
  {
    var a, b := Quantities(pairs)[1..], Quantities(pairs[1..]);
    forall i | 0 <= i < |a| ensures a[i] == b[i] {
      assert pairs[1..][i] == pairs[i + 1];
    }
  }

  /** A quantity of a well-formed entry is its count, `_`, and its name. */
  lemma QuantityOf(p: (string, int))
    requires WellNamed(p.0) && p.1 >= 0
    ensures Quantity(p) == NatToString(p.1) + "_" + p.0
    ensures |Quantity(p)| > 0 && IsDigit(Quantity(p)[0]) && IsLetter(Quantity(p)[|Quantity(p)| - 1])
  {
  }

  lemma JoinFront(sep: string, parts: seq<string>)
    requires |parts| > 0
    ensures Join(sep, parts) == parts[0] + (if |parts| == 1 then "" else sep + Join(sep, parts[1..]))
  {
  }

  lemma {:induction false} JoinStartsWith(sep: string, parts: seq<string>)
    requires |parts| > 0
    ensures StartsWith(Join(sep, parts), parts[0])
  {
    var j := Join(sep, parts);
    if |parts| > 1 {
      assert j == parts[0] + (sep + Join(sep, parts[1..]));
    }
  }

  /** The joined quantities start with a digit unless there are none. */
  lemma QuantitiesStart(pairs: Dict<int>)
    requires WellFormedTarget(pairs)
    ensures var q := Join("_", Quantities(pairs)); |q| == 0 <==> |pairs| == 0
    ensures var q := Join("_", Quantities(pairs)); |q| > 0 ==> IsDigit(q[0])
  {
    if |pairs| > 0 {
      var qs := Quantities(pairs);
      QuantityOf(pairs[0]);
      JoinStartsWith("_", qs);
      assert Join("_", qs)[0] == qs[0][0];
    }
  }

  /** The quantities part of a generated ID reads back as its dish names, in
      the same order. */
  lemma {:induction false} ItemsOfQuantities(pairs: Dict<int>)
    requires WellFormedTarget(pairs)
    ensures Items(Join("_", Quantities(pairs))) == KeyList(pairs)
  {
    if |pairs| > 0 {
      var qs := Quantities(pairs);
      var rest := pairs[1..];
      QuantitiesTail(pairs);
      ItemsOfQuantities(rest);
      var tail := Join("_", Quantities(rest));
      QuantitiesStart(rest);
      ItemsStep(pairs[0].1, pairs[0].0, tail);
      JoinFront("_", qs);
      QuantityOf(pairs[0]);
    }
  }

  /** The last character of a non-empty quantities part is a letter. */
  lemma {:induction false} QuantitiesEndInLetter(pairs: Dict<int>)
    requires WellFormedTarget(pairs) && |pairs| > 0
    ensures var q := Join("_", Quantities(pairs)); |q| > 0 && IsLetter(q[|q| - 1])
  {
    var qs := Quantities(pairs);
    JoinFront("_", qs);
    QuantityOf(pairs[0]);
    if |pairs| > 1 {
      QuantitiesTail(pairs);
      QuantitiesEndInLetter(pairs[1..]);
    }
  }

  /** Joined agent keys are a non-empty run of digits and underscores with
      one more part than underscores. */
  lemma {:induction false} JoinedKeys(bs: seq<string>)
    requires |bs| > 0 && forall i | 0 <= i < |bs| :: IsAgentKey(bs[i])
    ensures var j := Join("_", bs);
      && |j| > 0 && (forall k | 0 <= k < |j| :: IsCutChar(j[k]))
      && PartCount(j, '_') == |bs|
  {
    NoSeparator(bs[0]);
    if |bs| > 1 {
      JoinedKeys(bs[1..]);
      var rest := Join("_", bs[1..]);
      var j := Join("_", bs);
      assert j == bs[0] + ("_" + rest);
      PartCountConcat(bs[0], "_" + rest);
      assert ("_" + rest)[1..] == rest;
      assert forall k | 0 <= k < |j| :: j[k] == if k < |bs[0]| then bs[0][k] else ("_" + rest)[k - |bs[0]|];
    }
  }

  lemma {:induction false} NoSeparator(b: string)
    requires AllDigits(b)
    ensures PartCount(b, '_') == 1
  {
    if |b| > 0 {
      NoSeparator(b[1..]);
    }
  }

  lemma {:induction false} PartCountConcat(a: string, t: string)
    requires AllDigits(a) && |t| > 0
    ensures PartCount(a + t, '_') == PartCount(t, '_')
  {
    if |a| > 0 {
      assert (a + t)[0] == a[0] && IsDigit(a[0]);
      assert (a + t)[1..] == a[1..] + t;
      assert AllDigits(a[1..]) by {
        assert forall k | 0 <= k < |a[1..]| :: a[1..][k] == a[k + 1];
      }
      PartCountConcat(a[1..], t);
    } else {
      assert a + t == t;
    }
  }

  /** Sorting agent keys keeps them agent keys. */
  lemma SortedKeys(blocked: seq<string>)
    requires forall i | 0 <= i < |blocked| :: IsAgentKey(blocked[i])
    ensures |SortStrings(blocked)| == |blocked|
    ensures forall i | 0 <= i < |SortStrings(blocked)| :: IsAgentKey(SortStrings(blocked)[i])
  {
    var s := SortStrings(blocked);
    SortPermutes(blocked, Codes);
    assert |s| == |multiset(s)| == |blocked|;
    forall i | 0 <= i < |s| ensures IsAgentKey(s[i]) {
      assert s[i] in multiset(blocked);
    }
  }

  /** The entries of the sorted target are entries of the target. */
  lemma SortedTargetWellFormed(target: Dict<int>)
    requires WellFormedTarget(target)
    ensures WellFormedTarget(SortedTarget(target))
  {
    var s := SortedTarget(target);
    forall i | 0 <= i < |s| ensures WellNamed(s[i].0) && s[i].1 >= 0 {
      assert s[i] in multiset(target);
      var j :| 0 <= j < |target| && target[j] == s[i];
    }
  }

  /** The part of a generated ID after its prefix. */
  lemma StripPrefixOfTaskId(target: Dict<int>, blocked: seq<string>)
    ensures StripPrefix(TaskId(target, blocked)) == Join("_", Quantities(SortedTarget(target))) + BlockedSuffix(blocked)
  {
    var rest := Join("_", Quantities(SortedTarget(target))) + BlockedSuffix(blocked);
    assert TaskId(target, blocked) == IdPrefix + rest;
  }

  /** The joined agent keys after a marker form the one match of
      `marker[0-9_]+$` in `head + marker + keys`, when `head` is empty or ends
      in a letter. */
  lemma CutAfter(head: string, m: string, blocked: seq<string>)
    requires |m| >= 2 && m[0] != m[1] && !IsCutChar(m[|m| - 2])
    requires |blocked| > 0 && forall i | 0 <= i < |blocked| :: IsAgentKey(blocked[i])
    ensures var j := Join("_", SortStrings(blocked));
      && FirstCut(head + m + j, m, 0) == Some(|head|)
      && PartCount(j, '_') == |blocked|
  {
    var j := Join("_", SortStrings(blocked));
    SortedKeys(blocked);
    JoinedKeys(SortStrings(blocked));
    var s := head + m + j;
    assert s[|head|..|head| + |m|] == m;
    assert forall k | |head| + |m| <= k < |s| :: s[k] == j[k - |head| - |m|];
    assert CutAt(s, m, |head|);
    FirstCutIs(s, m, |head|);
  }

  /** Removing the blocked part of a generated ID leaves its quantities. */
  lemma StripBlockedOfQuantities(q: string, blocked: seq<string>)
    requires |q| == 0 || IsLetter(q[|q| - 1])
    requires forall i | 0 <= i < |blocked| :: IsAgentKey(blocked[i])
    ensures StripBlocked(q + BlockedSuffix(blocked)) == q
  {
    if |blocked| == 0 {
      assert q + BlockedSuffix(blocked) == q;
      if |q| > 0 {
        NoCutBeforeLetter(q, BlockedMarker);
      }
    } else {
      var s := q + BlockedSuffix(blocked);
      assert s == q + BlockedMarker + Join("_", SortStrings(blocked));
      CutAfter(q, BlockedMarker, blocked);
      assert s[..|q|] == q;
    }
  }

  /** `extract_cooking_items` inverts `generate_task_id`: for dish names made
      of letters and underscores that end in a letter, non-negative counts
      and numeric agent keys, the dish names come back in sorted order. */
  lemma ExtractItemsOfTaskId(target: Dict<int>, blocked: seq<string>)
    requires WellFormedTarget(target)
    requires forall i | 0 <= i < |blocked| :: IsAgentKey(blocked[i])
    ensures ExtractItems(TaskId(target, blocked)) == KeyList(SortedTarget(target))
  {
    var sorted := SortedTarget(target);
    var q := Join("_", Quantities(sorted));
    StripPrefixOfTaskId(target, blocked);
    SortedTargetWellFormed(target);
    if |sorted| > 0 {
      QuantitiesEndInLetter(sorted);
    } else {
      assert q == "";
    }
    StripBlockedOfQuantities(q, blocked);
    ItemsOfQuantities(sorted);
  }

  lemma MarkerParts()
    ensures BlockedMarker == "_" + KeyMarker
  {
  }

  /** The blocked key of a name ending in a letter, followed by the blocked
      part of an ID. */
  lemma BlockedKeyOfSuffix(head: string, blocked: seq<string>)
    requires |head| > 0 && IsLetter(head[|head| - 1])
    requires forall i | 0 <= i < |blocked| :: IsAgentKey(blocked[i])
    ensures BlockedKey(head + BlockedSuffix(blocked)) == AgentsKey(|blocked|)
  {
    if |blocked| == 0 {
      assert head + BlockedSuffix(blocked) == head;
      NoCutBeforeLetter(head, KeyMarker);
    } else {
      BlockedKeyOfSome(head, blocked);
    }
  }

  lemma BlockedKeyOfSome(head: string, blocked: seq<string>)
    requires |head| > 0 && IsLetter(head[|head| - 1])
    requires |blocked| > 0 && forall i | 0 <= i < |blocked| :: IsAgentKey(blocked[i])
    ensures BlockedKey(head + BlockedSuffix(blocked)) == AgentsKey(|blocked|)
  {
    var id := head + BlockedSuffix(blocked);
    var front := head + "_";
    var j := Join("_", SortStrings(blocked));
    MarkerParts();
    assert BlockedSuffix(blocked) == "_" + KeyMarker + j;
    assert id == front + KeyMarker + j;
    CutAfter(front, KeyMarker, blocked);
    assert id[|front| + |KeyMarker|..] == j;
  }

  /** The blocked key of a generated ID counts the blocked agents. */
  lemma BlockedKeyOfTaskId(target: Dict<int>, blocked: seq<string>)
    requires WellFormedTarget(target) && |target| > 0
    requires forall i | 0 <= i < |blocked| :: IsAgentKey(blocked[i])
    ensures BlockedKey(TaskId(target, blocked)) == AgentsKey(|blocked|)
  {
    var sorted := SortedTarget(target);
    var head := IdPrefix + Join("_", Quantities(sorted));
    SortedTargetWellFormed(target);
    assert |sorted| == |multiset(sorted)| == |target|;
    QuantitiesEndInLetter(sorted);
    assert TaskId(target, blocked) == head + BlockedSuffix(blocked);
    BlockedKeyOfSuffix(head, blocked);
  }
}
