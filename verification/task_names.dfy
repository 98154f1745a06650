/** Construction task names and the two regular expressions the
    construction scripts read them with: `materials_(\d+)_rooms_(\d+)` in the
    analyzer and the longer difficulty pattern in the filters. A pattern is a
    list of literal texts and digit runs, and `re.search` becomes a scan for
    the leftmost position where the whole list matches. */
module TaskNames {
  import opened Py
  import opened Text

  /** Both patterns are a list of labels, each followed by a group `(\d+)`.
      Every label after the first is non-empty and starts with something
      other than a digit, so the greedy digit run before it is the only one
      that can match: a shorter run leaves a digit where the label should
      start, and backtracking never helps. */
  predicate Greedy(labels: seq<string>)
  {
    forall k | 1 <= k < |labels| :: |labels[k]| > 0 && !IsDigit(labels[k][0])
  }

  /** The values of the groups when the pattern matches `s` starting at
      `i`, and nothing when it does not. */
  function MatchAt(s: string, i: nat, labels: seq<string>): (r: Option<seq<nat>>)
    requires i <= |s|
    ensures r.Some? ==> |r.value| == |labels|
    decreases |labels|
  {
    if |labels| == 0 then Some([])
    else if !OccursAt(s, labels[0], i) then None
    else
      var j := i + |labels[0]|;
      var n := DigitRun(s[j..]);
      if n == 0 then None
      else match MatchAt(s, j + n, labels[1..])
        case None => None
        case Some(vs) => Some([ParseDigits(s[j..j + n])] + vs)
  }

  /** `re.search(pattern, s[i:])`: the match at the first position from `i`
      on where the pattern matches. */
  function SearchFrom(s: string, i: nat, labels: seq<string>): (r: Option<seq<nat>>)
    requires i <= |s|
    ensures r.Some? ==> |r.value| == |labels|
    decreases |s| - i
  {
    if MatchAt(s, i, labels).Some? then MatchAt(s, i, labels)
    else if i == |s| then None
    else SearchFrom(s, i + 1, labels)
  }

  function Search(s: string, labels: seq<string>): (r: Option<seq<nat>>)
    ensures r.Some? ==> |r.value| == |labels|
  {
    SearchFrom(s, 0, labels)
  }

  /** The pattern matches at `i` and at no position from `from` up to `i`. */
  predicate FirstMatch(s: string, from: nat, i: nat, labels: seq<string>)
  {
    from <= i <= |s| && MatchAt(s, i, labels).Some?
    && forall j | from <= j < i :: MatchAt(s, j, labels).None?
  }

  /** The search finds the leftmost match, and finds nothing exactly when
      the pattern matches nowhere. */
  lemma {:induction false} SearchFromMeans(s: string, from: nat, labels: seq<string>)
    requires from <= |s|
    ensures SearchFrom(s, from, labels).None? <==> forall j | from <= j <= |s| :: MatchAt(s, j, labels).None?
    ensures SearchFrom(s, from, labels).Some? ==>
      exists i :: FirstMatch(s, from, i, labels) && SearchFrom(s, from, labels) == MatchAt(s, i, labels)
    decreases |s| - from
  {
    if MatchAt(s, from, labels).Some? {
      assert FirstMatch(s, from, from, labels);
      assert SearchFrom(s, from, labels) == MatchAt(s, from, labels);
    } else if from < |s| {
      SearchFromMeans(s, from + 1, labels);
      if SearchFrom(s, from, labels).Some? {
        var i :| FirstMatch(s, from + 1, i, labels) && SearchFrom(s, from + 1, labels) == MatchAt(s, i, labels);
        assert FirstMatch(s, from, i, labels);
      }
    }
  }

  lemma SearchMeans(s: string, labels: seq<string>)
    ensures Search(s, labels).None? <==> forall j | 0 <= j <= |s| :: MatchAt(s, j, labels).None?
    ensures Search(s, labels).Some? ==>
      exists i :: FirstMatch(s, 0, i, labels) && Search(s, labels) == MatchAt(s, i, labels)
  {
    SearchFromMeans(s, 0, labels);
  }

  /** The text that matches the pattern with the given group values: each
      label followed by its number in decimal. */
  function Render(labels: seq<string>, vals: seq<nat>): (s: string)
    requires |vals| == |labels|
    ensures |labels| > 0 ==> StartsWith(s, labels[0])
  {
    if |labels| == 0 then ""
    else labels[0] + NatToString(vals[0]) + Render(labels[1..], vals[1..])
  }

  lemma {:induction false} RenderAppend(l1: seq<string>, l2: seq<string>, v1: seq<nat>, v2: seq<nat>)
    requires |v1| == |l1| && |v2| == |l2|
    ensures Render(l1 + l2, v1 + v2) == Render(l1, v1) + Render(l2, v2)
  {
    if |l1| > 0 {
      assert (l1 + l2)[1..] == l1[1..] + l2 && (v1 + v2)[1..] == v1[1..] + v2;
      RenderAppend(l1[1..], l2, v1[1..], v2);
    } else {
      assert l1 + l2 == l2 && v1 + v2 == v2;
    }
  }

  /** The number a group reads ends at `k`. */
  predicate NoDigitAt(s: string, k: int)
  {
    0 <= k <= |s| && (k == |s| || !IsDigit(s[k]))
  }

  lemma OccursSplit(s: string, i: int, x: string, y: string, k: int)
    requires OccursAt(s, x + y, i) && k == i + |x|
    ensures OccursAt(s, x, i) && OccursAt(s, y, k)
  {
    assert s[i..i + |x|] == (x + y)[..|x|];
    assert s[i + |x|..i + |x| + |y|] == (x + y)[|x|..];
  }

  /** A run of `n` digits at `j` that nothing continues is what `\d+`
      takes there. */
  lemma DigitRunAt(s: string, j: nat, n: nat)
    requires j + n <= |s| && NoDigitAt(s, j + n)
    requires forall k | j <= k < j + n :: IsDigit(s[k])
    ensures DigitRun(s[j..]) == n
  {
    var t := s[j..];
    assert forall q | 0 <= q < n :: t[q] == s[j + q];
    assert n < |t| ==> t[n] == s[j + n];
  }

  /** A number in decimal, found at `j` and not continued, is what `\d+`
      reads there. */
  lemma NumberAt(s: string, j: nat, v: nat)
    requires OccursAt(s, NatToString(v), j) && NoDigitAt(s, j + |NatToString(v)|)
    ensures DigitRun(s[j..]) == |NatToString(v)| > 0
    ensures ParseDigits(s[j..j + |NatToString(v)|]) == v
  {
    var text := NatToString(v);
    assert forall k | j <= k < j + |text| :: s[k] == text[k - j];
    DigitRunAt(s, j, |text|);
    ParseNatToString(v);
  }

  lemma GreedyTail(labels: seq<string>)
    requires Greedy(labels) && |labels| > 0
    ensures Greedy(labels[1..])
  {
    assert forall k | 1 <= k < |labels| - 1 :: labels[1..][k] == labels[k + 1];
  }

  /** One label and its number, read at `i`. */
  lemma MatchAtStep(s: string, i: nat, labels: seq<string>, j: nat, k: nat, vs: seq<nat>)
    requires |labels| > 0 && j == i + |labels[0]| && j < k <= |s|
    requires OccursAt(s, labels[0], i) && DigitRun(s[j..]) == k - j
    requires MatchAt(s, k, labels[1..]) == Some(vs)
    ensures MatchAt(s, i, labels) == Some([ParseDigits(s[j..k])] + vs)
  {
    assert j + DigitRun(s[j..]) == k;
  }

  /** What a rendering found at `i` shows there: its first label, then
      the first number, not continued, then the rendering of the rest. */
  lemma RenderFound(s: string, i: nat, labels: seq<string>, vals: seq<nat>, j: nat, k: nat)
    requires Greedy(labels) && |vals| == |labels| && |labels| > 0
    requires OccursAt(s, Render(labels, vals), i) && NoDigitAt(s, i + |Render(labels, vals)|)
    requires j == i + |labels[0]| && k == j + |NatToString(vals[0])|
    ensures OccursAt(s, labels[0], i) && j < k <= |s|
    ensures DigitRun(s[j..]) == k - j && ParseDigits(s[j..k]) == vals[0]
    ensures OccursAt(s, Render(labels[1..], vals[1..]), k)
    ensures NoDigitAt(s, k + |Render(labels[1..], vals[1..])|)
  {
    var l, text := labels[0], NatToString(vals[0]);
    var rest := Render(labels[1..], vals[1..]);
    assert Render(labels, vals) == (l + text) + rest;
    OccursSplit(s, i, l + text, rest, k);
    OccursSplit(s, i, l, text, j);
    assert NoDigitAt(s, k) by {
      if |labels| > 1 {
        assert s[k] == rest[0] == labels[1][0];
      }
    }
    NumberAt(s, j, vals[0]);
  }

  /** Reading back: a greedy pattern matches its own rendering wherever it
      sits and returns the values it was rendered from, provided the text
      after it does not continue the last number. */
  lemma {:induction false} MatchRender(s: string, i: nat, labels: seq<string>, vals: seq<nat>)
    requires Greedy(labels) && |vals| == |labels|
    requires OccursAt(s, Render(labels, vals), i) && NoDigitAt(s, i + |Render(labels, vals)|)
    ensures MatchAt(s, i, labels) == Some(vals)
    decreases |labels|
  {
    if |labels| > 0 {
      var j := i + |labels[0]|;
      var k := j + |NatToString(vals[0])|;
      RenderFound(s, i, labels, vals, j, k);
      GreedyTail(labels);
      MatchRender(s, k, labels[1..], vals[1..]);
      MatchAtStep(s, i, labels, j, k, vals[1..]);
      assert [vals[0]] + vals[1..] == vals;
    }
  }

  /** `materials_(\d+)_rooms_(\d+)` */
  const MaterialsRooms: seq<string> := ["materials_", "_rooms_"]

  /** `materials_(\d+)_rooms_(\d+)_window_(\d+)_carpet_(\d+)_variant_\d+`;
      the variant is read as a fifth group and ignored. */
  const DifficultyPattern: seq<string> := MaterialsRooms + Furnishing

  /** The part of the difficulty pattern after the rooms. */
  const Furnishing: seq<string> := ["_window_", "_carpet_", "_variant_"]

  lemma PatternsGreedy()
    ensures Greedy(MaterialsRooms) && Greedy(DifficultyPattern) && |DifficultyPattern| == 5
    ensures |Furnishing| > 0 && |Furnishing[0]| > 0 && !IsDigit(Furnishing[0][0])
  {
    assert DifficultyPattern == ["materials_", "_rooms_", "_window_", "_carpet_", "_variant_"];
  }

  /** The difficulty parameters of a construction task: material count,
      room count, window and carpet flags. */
  datatype Params = Params(m: nat, r: nat, w: nat, c: nat)

  /** The name the construction task generator gives a task:
      `materials_{m}_rooms_{r}_window_{w}_carpet_{c}_variant_{variant}`. */
  function TaskName(p: Params, variant: nat): string
  {
    PatternsGreedy();
    Render(DifficultyPattern, [p.m, p.r, p.w, p.c, variant])
  }

  /** `extract_difficulty(task_name)`: the four numbers of the leftmost
      match, or all zeros when nothing matches. */
  function ExtractDifficulty(name: string): (p: Params)
    ensures Search(name, DifficultyPattern).None? ==> p == Params(0, 0, 0, 0)
  {
    PatternsGreedy();
    match Search(name, DifficultyPattern)
    case None => Params(0, 0, 0, 0)
    case Some(vs) => Params(vs[0], vs[1], vs[2], vs[3])
  }

  /** The material and room counts of the analyzer's pattern, when the name
      holds them. */
  function MaterialsAndRooms(name: string): (mr: Option<(nat, nat)>)
    ensures mr.None? <==> Search(name, MaterialsRooms).None?
  {
    match Search(name, MaterialsRooms)
    case None => None
    case Some(vs) => Some((vs[0], vs[1]))
  }

  /** A generated name reads back as the parameters it was generated from. */
  lemma ExtractDifficultyOfTaskName(p: Params, variant: nat)
    ensures ExtractDifficulty(TaskName(p, variant)) == p
  {
    PatternsGreedy();
    var name := TaskName(p, variant);
    assert OccursAt(name, name, 0);
    MatchRender(name, 0, DifficultyPattern, [p.m, p.r, p.w, p.c, variant]);
    SearchMeans(name, DifficultyPattern);
  }

  /** The analyzer's pattern reads the same material and room counts from a
      generated name. */
  lemma MaterialsAndRoomsOfTaskName(p: Params, variant: nat)
    ensures MaterialsAndRooms(TaskName(p, variant)) == Some((p.m, p.r))
  {
    PatternsGreedy();
    var vs, ws := [p.m, p.r], [p.w, p.c, variant];
    RenderAppend(MaterialsRooms, Furnishing, vs, ws);
    assert vs + ws == [p.m, p.r, p.w, p.c, variant];
    var rest := Render(Furnishing, ws);
    var name := TaskName(p, variant);
    var head := Render(MaterialsRooms, vs);
    assert name == head + rest;
    assert OccursAt(name, head, 0) && name[|head|] == rest[0];
    MatchRender(name, 0, MaterialsRooms, vs);
    SearchMeans(name, MaterialsRooms);
  }

  /** A name without the text `materials_` matches neither pattern. */
  lemma NoMaterialsNoMatch(name: string)
    requires !Contains(name, "materials_")
    ensures ExtractDifficulty(name) == Params(0, 0, 0, 0)
    ensures MaterialsAndRooms(name) == None
  {
    PatternsGreedy();
    forall j | 0 <= j <= |name| ensures MatchAt(name, j, DifficultyPattern).None? && MatchAt(name, j, MaterialsRooms).None? {
      if OccursAt(name, "materials_", j) {
        ContainsWitness(name, "materials_", j);
      }
    }
    SearchMeans(name, DifficultyPattern);
    SearchMeans(name, MaterialsRooms);
  }
}
