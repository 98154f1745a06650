/** `collections.Counter` over strings, kept as a quantity map in first-seen
    order, and the sum of a quantity map after one of its entries changes. */
module Counter {
  import opened Dict
  import opened CookingInventory

  /** Overwriting one entry changes the sum by the difference. */
  lemma {:induction false} StoreTotal(c: Counts, k: string, v: int)
    ensures Total(Store(c, k, v)) == Total(c) - Amount(c, k) + v
  {
    if |c| > 0 {
      var r := Store(c, k, v);
      StoreCons(c, k, v);
      assert Total(r) == r[0].1 + Total(r[1..]);
      if c[0].0 != k {
        StoreTotal(c[1..], k, v);
        assert Amount(c, k) == Amount(c[1..], k);
      } else {
        assert Amount(c, k) == c[0].1;
      }
    }
  }

  lemma BumpTotal(c: Counts, k: string, q: int)
    ensures Total(Bump(c, k, q)) == Total(c) + q
  {
    assert Bump(c, k, q) == Store(c, k, Amount(c, k) + q);
    StoreTotal(c, k, Amount(c, k) + q);
  }

  /** `Counter(vs)`: first-seen order, each value bumped once per occurrence. */
  function Tally(vs: seq<string>): (r: Counts)
    ensures DistinctKeys(r)
  {
    if |vs| == 0 then [] else Bump(Tally(vs[..|vs| - 1]), vs[|vs| - 1], 1)
  }

  /** A counter holds exactly the values that occur. */
  lemma {:induction false} TallyKeys(vs: seq<string>)
    ensures Keys(Tally(vs)) == set x | x in vs
  {
    if |vs| > 0 {
      var init, last := vs[..|vs| - 1], vs[|vs| - 1];
      var prev := Tally(init);
      assert Tally(vs) == Bump(prev, last, 1);
      TallyKeys(init);
      LastMember(init, last);
      assert vs == init + [last];
    }
  }

  lemma LastMember(init: seq<string>, last: string)
    ensures (set x | x in init + [last]) == (set x | x in init) + {last}
  {
  }

  /** Each value is counted once per occurrence. */
  lemma {:induction false} TallyAmounts(vs: seq<string>, k: string)
    ensures Amount(Tally(vs), k) == multiset(vs)[k]
  {
    if |vs| > 0 {
      var init, last := vs[..|vs| - 1], vs[|vs| - 1];
      var prev := Tally(init);
      assert Tally(vs) == Bump(prev, last, 1);
      assert Amount(Tally(vs), k) == Amount(prev, k) + (if k == last then 1 else 0);
      TallyAmounts(init, k);
      LastOccurrence(vs, k);
    }
  }

  lemma LastOccurrence(vs: seq<string>, k: string)
    requires |vs| > 0
    ensures multiset(vs)[k] == multiset(vs[..|vs| - 1])[k] + (if k == vs[|vs| - 1] then 1 else 0)
  {
    assert vs == vs[..|vs| - 1] + [vs[|vs| - 1]];
  }

  /** The counts add up to the number of values. */
  lemma {:induction false} TallyTotal(vs: seq<string>)
    ensures Total(Tally(vs)) == |vs|
  {
    if |vs| > 0 {
      var init, last := vs[..|vs| - 1], vs[|vs| - 1];
      var prev := Tally(init);
      TallyTotal(init);
      BumpTotal(prev, last, 1);
    }
  }
}
