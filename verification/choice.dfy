/** The random choices of the construction filters, `random.sample` and
    `random.shuffle`, as functions of the random numbers drawn. Each draw
    picks one of the elements not yet taken, so whatever the draws, a sample
    takes distinct positions of its population; which positions depends on
    the draws, and nothing about it is proved. */
module Choice {

  /** The population without its element at `i`. */
  function RemoveAt<T>(xs: seq<T>, i: nat): (r: seq<T>)
    requires i < |xs|
    ensures |r| == |xs| - 1
    ensures forall q | 0 <= q < |r| :: r[q] == xs[if q < i then q else q + 1]
  {
    xs[..i] + xs[i + 1..]
  }

  lemma RemoveAtMultiset<T>(xs: seq<T>, i: nat)
    requires i < |xs|
    ensures multiset(xs) == multiset{xs[i]} + multiset(RemoveAt(xs, i))
  {
    assert xs == xs[..i] + [xs[i]] + xs[i + 1..];
  }

  /** `random.sample(xs, k)`: `k` elements taken one at a time, the n-th
      by the n-th draw. A sample larger than the population raises
      `ValueError`, which every caller rules out by checking the length
      first. */
  function Sample<T>(xs: seq<T>, k: nat, draws: seq<nat>): (r: seq<T>)
    requires k <= |xs|
    ensures |r| == k
    decreases k
  {
    if k == 0 then []
    else
      var i := Draw(draws, |xs|);
      [xs[i]] + Sample(RemoveAt(xs, i), k - 1, Later(draws))
  }

  /** The position the next draw picks among `n` elements. */
  function Draw(draws: seq<nat>, n: nat): (i: nat)
    requires n > 0
    ensures i < n
  {
    (if |draws| > 0 then draws[0] else 0) % n
  }

  /** The draws after the next. */
  function Later(draws: seq<nat>): seq<nat>
  {
    if |draws| > 0 then draws[1..] else []
  }

  /** `random.shuffle(xs)` */
  function Shuffle<T>(xs: seq<T>, draws: seq<nat>): (r: seq<T>)
    ensures |r| == |xs|
  {
    Sample(xs, |xs|, draws)
  }

  lemma AddBoth<T>(x: T, a: multiset<T>, b: multiset<T>)
    requires a <= b
    ensures multiset{x} + a <= multiset{x} + b
  {
  }

  /** One draw: the sample is the element drawn, then a sample of the rest. */
  lemma SampleStep<T>(xs: seq<T>, k: nat, draws: seq<nat>)
    requires 0 < k <= |xs|
    ensures var i := Draw(draws, |xs|);
      && multiset(xs) == multiset{xs[i]} + multiset(RemoveAt(xs, i))
      && multiset(Sample(xs, k, draws)) == multiset{xs[i]} + multiset(Sample(RemoveAt(xs, i), k - 1, Later(draws)))
  {
    var i := Draw(draws, |xs|);
    RemoveAtMultiset(xs, i);
  }

  /** A sample takes no element more often than the population holds it. */
  lemma {:induction false} SampleWithin<T>(xs: seq<T>, k: nat, draws: seq<nat>)
    requires k <= |xs|
    ensures multiset(Sample(xs, k, draws)) <= multiset(xs)
    decreases k
  {
    if k > 0 {
      var i := Draw(draws, |xs|);
      var rest := RemoveAt(xs, i);
      var tail := multiset(Sample(rest, k - 1, Later(draws)));
      SampleStep(xs, k, draws);
      SampleWithin(rest, k - 1, Later(draws));
      AddBoth(xs[i], tail, multiset(rest));
      assert multiset(Sample(xs, k, draws)) == multiset{xs[i]} + tail;
    }
  }

  /** A sample of everything is a rearrangement. */
  lemma {:induction false} SampleAll<T>(xs: seq<T>, k: nat, draws: seq<nat>)
    requires k == |xs|
    ensures multiset(Sample(xs, k, draws)) == multiset(xs)
    decreases k
  {
    if k > 0 {
      var i := Draw(draws, |xs|);
      SampleStep(xs, k, draws);
      SampleAll(RemoveAt(xs, i), k - 1, Later(draws));
    }
  }

  /** A sample takes no element more often than the population holds it,
      and a sample of everything is a rearrangement. */
  lemma SampleMultiset<T>(xs: seq<T>, k: nat, draws: seq<nat>)
    requires k <= |xs|
    ensures multiset(Sample(xs, k, draws)) <= multiset(xs)
    ensures k == |xs| ==> multiset(Sample(xs, k, draws)) == multiset(xs)
  {
    SampleWithin(xs, k, draws);
    if k == |xs| {
      SampleAll(xs, k, draws);
    }
  }

  /** Every element of a sample is an element of the population. */
  lemma SampleMembers<T>(xs: seq<T>, k: nat, draws: seq<nat>)
    requires k <= |xs|
    ensures forall y | y in Sample(xs, k, draws) :: y in xs
  {
    SampleMultiset(xs, k, draws);
    forall y | y in Sample(xs, k, draws) ensures y in xs {
      assert y in multiset(Sample(xs, k, draws));
    }
  }

  lemma ShuffleMultiset<T>(xs: seq<T>, draws: seq<nat>)
    ensures multiset(Shuffle(xs, draws)) == multiset(xs)
  {
    SampleMultiset(xs, |xs|, draws);
  }

  /** No two elements share a name. */
  ghost predicate DistinctBy<T, K>(xs: seq<T>, name: T -> K)
  {
    forall i, j | 0 <= i < j < |xs| :: name(xs[i]) != name(xs[j])
  }

  lemma DistinctRemoveAt<T, K>(xs: seq<T>, i: nat, name: T -> K)
    requires i < |xs| && DistinctBy(xs, name)
    ensures DistinctBy(RemoveAt(xs, i), name)
    ensures forall y | y in RemoveAt(xs, i) :: name(y) != name(xs[i])
  {
    var r := RemoveAt(xs, i);
    forall y | y in r ensures name(y) != name(xs[i]) {
      var q :| 0 <= q < |r| && r[q] == y;
    }
  }

  /** Taking elements of a population with distinct names, each at most as
      often as it occurs, keeps the names distinct. */
  lemma {:induction false} SubDistinct<T, K>(a: seq<T>, b: seq<T>, name: T -> K)
    requires multiset(a) <= multiset(b) && DistinctBy(b, name)
    ensures DistinctBy(a, name)
    decreases |a|
  {
    if |a| > 0 {
      var x, tail := a[0], a[1..];
      assert a == [x] + tail;
      assert x in multiset(b);
      var p :| 0 <= p < |b| && b[p] == x;
      var rest := RemoveAt(b, p);
      RemoveAtMultiset(b, p);
      assert multiset(a) == multiset{x} + multiset(tail);
      assert multiset(tail) <= multiset(rest) by {
        forall e ensures multiset(tail)[e] <= multiset(rest)[e] {
          assert multiset(a)[e] <= multiset(b)[e];
        }
      }
      DistinctRemoveAt(b, p, name);
      SubDistinct(tail, rest, name);
      forall y | y in tail ensures name(y) != name(x) {
        assert y in multiset(rest);
      }
      ConsDistinct(x, tail, name);
    }
  }

  /** A sample of elements with distinct names has distinct names: it
      never takes the same element twice. */
  lemma SampleDistinct<T, K>(xs: seq<T>, k: nat, draws: seq<nat>, name: T -> K)
    requires k <= |xs| && DistinctBy(xs, name)
    ensures DistinctBy(Sample(xs, k, draws), name)
  {
    SampleMultiset(xs, k, draws);
    SubDistinct(Sample(xs, k, draws), xs, name);
  }

  lemma DistinctTail<T, K>(xs: seq<T>, name: T -> K)
    requires |xs| > 0 && DistinctBy(xs, name)
    ensures DistinctBy(xs[1..], name)
    ensures forall y | y in xs[1..] :: name(y) != name(xs[0])
  {
    assert forall q | 0 <= q < |xs| - 1 :: xs[1..][q] == xs[q + 1];
  }

  /** What a sequence holds no more often than another, the other holds. */
  lemma SubMembers<T>(a: seq<T>, b: seq<T>)
    requires multiset(a) <= multiset(b)
    ensures forall x | x in a :: x in b
  {
    forall x | x in a ensures x in b {
      assert x in multiset(a);
    }
  }

  lemma PrefixMultiset<T>(r: seq<T>, n: nat)
    requires n <= |r|
    ensures multiset(r[..n]) <= multiset(r)
  {
    assert r == r[..n] + r[n..];
  }

  /** An element of `r` outside its first `n` sits at some later position. */
  lemma BeyondPrefix<T>(r: seq<T>, n: nat, x: T)
    requires n <= |r| && x in r && x !in r[..n]
    ensures exists q | n <= q < |r| :: r[q] == x
  {
    var q :| 0 <= q < |r| && r[q] == x;
    assert forall j | 0 <= j < n :: r[..n][j] == r[j];
  }

  lemma DistinctPrefix<T, K>(xs: seq<T>, n: nat, name: T -> K)
    requires n <= |xs| && DistinctBy(xs, name)
    ensures DistinctBy(xs[..n], name)
  {
  }

  lemma Associate<T>(a: seq<T>, b: seq<T>, c: seq<T>)
    ensures (a + b) + c == a + (b + c)
  {
  }

  /** Moving the head of `b` to the end of `a` keeps `a + b`. */
  lemma ShiftHead<T>(a: seq<T>, b: seq<T>)
    requires |b| > 0
    ensures (a + [b[0]]) + b[1..] == a + b
  {
    assert b == [b[0]] + b[1..];
  }

  lemma ConsDistinct<T, K>(x: T, tail: seq<T>, name: T -> K)
    requires DistinctBy(tail, name)
    requires forall y | y in tail :: name(y) != name(x)
    ensures DistinctBy([x] + tail, name)
  {
    var r := [x] + tail;
    assert forall b | 1 <= b < |r| :: r[b] == tail[b - 1];
  }

}
