/** Success counters kept per category by the crafting and results
    analyzers: every folder adds one to the overall total, and a folder
    whose result could be read adds one to the total of each category its
    path falls in, and its success to their successes. */
module Tallies {
  import opened Py

  /** A `*_total` / `*_successful` pair. */
  datatype Counts = Counts(total: nat, successful: nat)

  /** `x_successful / x_total if x_total > 0 else 0` */
  function Rate(c: Counts): real
  {
    if c.total > 0 then c.successful as real / c.total as real else 0.0
  }

  /** A rate is a fraction whenever the successes are at most the total, and
      multiplied back by the total it gives the successes. */
  lemma RateBounds(c: Counts)
    ensures c.successful <= c.total ==> 0.0 <= Rate(c) <= 1.0
    ensures c.total > 0 ==> Rate(c) * c.total as real == c.successful as real
    ensures c.total == 0 ==> Rate(c) == 0.0
  {
  }

  /** A task folder: its path and the result read from it, or nothing when
      reading it raised after the overall total had been counted. */
  datatype Row = Row(path: string, outcome: Option<bool>)

  /** The state of the aggregation loop: the overall total and successes,
      and one counter per category, in the order of the category list. */
  datatype Report = Report(total: nat, successful: nat, counters: seq<Counts>)

  function Bit(b: bool): nat
  {
    if b then 1 else 0
  }

  /** One iteration of the aggregation loop. */
  function Step<C>(r: Report, row: Row, cats: seq<C>, member: (C, string) -> bool): Report
    requires |r.counters| == |cats|
  {
    match row.outcome
    case None => r.(total := r.total + 1)
    case Some(win) =>
      Report(r.total + 1, r.successful + Bit(win),
        seq(|cats|, k requires 0 <= k < |cats| =>
          if member(cats[k], row.path) then Counts(r.counters[k].total + 1, r.counters[k].successful + Bit(win))
          else r.counters[k]))
  }

  /** `aggregate_results` over the folders in the given order. */
  function Aggregate<C>(rows: seq<Row>, cats: seq<C>, member: (C, string) -> bool): (r: Report)
    ensures |r.counters| == |cats|
  {
    if |rows| == 0 then Report(0, 0, seq(|cats|, k requires 0 <= k < |cats| => Counts(0, 0)))
    else Step(Aggregate(rows[..|rows| - 1], cats, member), rows[|rows| - 1], cats, member)
  }

  /** The folders whose result was read. */
  function Scored(rows: seq<Row>): set<int>
  {
    set i | 0 <= i < |rows| && rows[i].outcome.Some?
  }

  /** The folders that succeeded. */
  function Won(rows: seq<Row>): set<int>
  {
    set i | 0 <= i < |rows| && rows[i].outcome == Some(true)
  }

  /** The folders in category `cat` whose result was read. */
  function ScoredIn<C>(rows: seq<Row>, cat: C, member: (C, string) -> bool): set<int>
  {
    set i | 0 <= i < |rows| && rows[i].outcome.Some? && member(cat, rows[i].path)
  }

  /** The folders in category `cat` that succeeded. */
  function WonIn<C>(rows: seq<Row>, cat: C, member: (C, string) -> bool): set<int>
  {
    set i | 0 <= i < |rows| && rows[i].outcome == Some(true) && member(cat, rows[i].path)
  }

  /** Adding a row adds its own index to each set it qualifies for. */
  lemma ScoredSnoc(rows: seq<Row>)
    requires |rows| > 0
    ensures |Scored(rows)| == |Scored(rows[..|rows| - 1])| + Bit(rows[|rows| - 1].outcome.Some?)
  {
    var n, init := |rows| - 1, rows[..|rows| - 1];
    assert forall i | 0 <= i < n :: init[i] == rows[i];
    assert Scored(rows) == Scored(init) + (if rows[n].outcome.Some? then {n} else {});
  }

  lemma WonSnoc(rows: seq<Row>)
    requires |rows| > 0
    ensures |Won(rows)| == |Won(rows[..|rows| - 1])| + Bit(rows[|rows| - 1].outcome == Some(true))
  {
    var n, init := |rows| - 1, rows[..|rows| - 1];
    assert forall i | 0 <= i < n :: init[i] == rows[i];
    assert Won(rows) == Won(init) + (if rows[n].outcome == Some(true) then {n} else {});
  }

  lemma ScoredInSnoc<C>(rows: seq<Row>, cat: C, member: (C, string) -> bool)
    requires |rows| > 0
    ensures var row := rows[|rows| - 1];
      |ScoredIn(rows, cat, member)| == |ScoredIn(rows[..|rows| - 1], cat, member)| + Bit(row.outcome.Some? && member(cat, row.path))
  {
    var n, init := |rows| - 1, rows[..|rows| - 1];
    assert forall i | 0 <= i < n :: init[i] == rows[i];
    assert ScoredIn(rows, cat, member) == ScoredIn(init, cat, member)
      + (if rows[n].outcome.Some? && member(cat, rows[n].path) then {n} else {});
  }

  lemma WonInSnoc<C>(rows: seq<Row>, cat: C, member: (C, string) -> bool)
    requires |rows| > 0
    ensures var row := rows[|rows| - 1];
      |WonIn(rows, cat, member)| == |WonIn(rows[..|rows| - 1], cat, member)| + Bit(row.outcome == Some(true) && member(cat, row.path))
  {
    var n, init := |rows| - 1, rows[..|rows| - 1];
    assert forall i | 0 <= i < n :: init[i] == rows[i];
    assert WonIn(rows, cat, member) == WonIn(init, cat, member)
      + (if rows[n].outcome == Some(true) && member(cat, rows[n].path) then {n} else {});
  }

  /** At most one folder per row is read. */
  lemma {:induction false} ScoredAtMost(rows: seq<Row>)
    ensures |Scored(rows)| <= |rows|
  {
    if |rows| > 0 {
      ScoredAtMost(rows[..|rows| - 1]);
      ScoredSnoc(rows);
    }
  }

  /** The counters hold what their names say: the total counts every
      folder, even one whose result raised; the successes count the
      successful folders; and the counter of each category counts the
      folders of that category whose result was read, and those of them that
      succeeded. */
  lemma {:induction false} AggregateCounts<C>(rows: seq<Row>, cats: seq<C>, member: (C, string) -> bool)
    ensures Aggregate(rows, cats, member).total == |rows|
    ensures Aggregate(rows, cats, member).successful == |Won(rows)|
    ensures forall k | 0 <= k < |cats| ::
      && Aggregate(rows, cats, member).counters[k].total == |ScoredIn(rows, cats[k], member)|
      && Aggregate(rows, cats, member).counters[k].successful == |WonIn(rows, cats[k], member)|
  {
    if |rows| > 0 {
      var init := rows[..|rows| - 1];
      AggregateCounts(init, cats, member);
      WonSnoc(rows);
      forall k | 0 <= k < |cats|
        ensures && Aggregate(rows, cats, member).counters[k].total == |ScoredIn(rows, cats[k], member)|
                && Aggregate(rows, cats, member).counters[k].successful == |WonIn(rows, cats[k], member)|
      {
        ScoredInSnoc(rows, cats[k], member);
        WonInSnoc(rows, cats[k], member);
      }
    }
  }

  /** Successes never exceed their total, overall and in every category, and
      the categories count only folders whose result was read. */
  lemma AggregateBounds<C>(rows: seq<Row>, cats: seq<C>, member: (C, string) -> bool)
    ensures Aggregate(rows, cats, member).successful <= |Scored(rows)| <= Aggregate(rows, cats, member).total
    ensures forall k | 0 <= k < |cats| ::
      Aggregate(rows, cats, member).counters[k].successful <= Aggregate(rows, cats, member).counters[k].total <= |Scored(rows)|
  {
    AggregateCounts(rows, cats, member);
    assert Won(rows) <= Scored(rows);
    SubsetSize(Won(rows), Scored(rows));
    ScoredAtMost(rows);
    forall k | 0 <= k < |cats|
      ensures Aggregate(rows, cats, member).counters[k].successful <= Aggregate(rows, cats, member).counters[k].total <= |Scored(rows)|
    {
      SubsetSize(WonIn(rows, cats[k], member), ScoredIn(rows, cats[k], member));
      SubsetSize(ScoredIn(rows, cats[k], member), Scored(rows));
    }
  }

  /** Two categories that never share a folder and both lie inside a third
      count together no more than the third. */
  lemma DisjointWithin<C>(rows: seq<Row>, a: C, b: C, c: C, member: (C, string) -> bool)
    requires forall p: string :: !(member(a, p) && member(b, p))
    requires forall p: string :: member(a, p) || member(b, p) ==> member(c, p)
    ensures |ScoredIn(rows, a, member)| + |ScoredIn(rows, b, member)| <= |ScoredIn(rows, c, member)|
  {
    var sa, sb, sc := ScoredIn(rows, a, member), ScoredIn(rows, b, member), ScoredIn(rows, c, member);
    assert sa * sb == {};
    assert |sa + sb| == |sa| + |sb|;
    SubsetSize(sa + sb, sc);
  }

  lemma SubsetSize(a: set<int>, b: set<int>)
    requires a <= b
    ensures |a| <= |b|
  {
    assert b == a + (b - a);
  }
}
