/** Python's `sorted` / `list.sort(key=...)`: a stable sort under the
    lexicographic order that Python uses both for strings (by code point) and
    for tuples of integers. Every key is therefore a `seq<int>`: a string maps
    to its code points, a tuple to its components, a single integer to a
    one-element sequence. */
module Sorting {

  /** Python's `<` on strings and on tuples: the first differing position
      decides, and a proper prefix is smaller. */
  predicate LexLess(a: seq<int>, b: seq<int>)
  {
    if |b| == 0 then false
    else if |a| == 0 then true
    else if a[0] != b[0] then a[0] < b[0]
    else LexLess(a[1..], b[1..])
  }

  predicate LexLeq(a: seq<int>, b: seq<int>) { !LexLess(b, a) }

  lemma {:induction false} LexIrreflexive(a: seq<int>)
    ensures !LexLess(a, a)
  {
    if |a| > 0 {
      LexIrreflexive(a[1..]);
    }
  }

  lemma {:induction false} LexTransitive(a: seq<int>, b: seq<int>, c: seq<int>)
    requires LexLess(a, b) && LexLess(b, c)
    ensures LexLess(a, c)
  {
    if |a| > 0 && a[0] == b[0] && b[0] == c[0] {
      LexTransitive(a[1..], b[1..], c[1..]);
    }
  }

  lemma {:induction false} LexTotal(a: seq<int>, b: seq<int>)
    ensures a == b || LexLess(a, b) || LexLess(b, a)
  {
    if |a| > 0 && |b| > 0 && a[0] == b[0] {
      LexTotal(a[1..], b[1..]);
      if a[1..] == b[1..] {
        assert a == [a[0]] + a[1..] && b == [b[0]] + b[1..];
      }
    }
  }

  lemma LexAsymmetric(a: seq<int>, b: seq<int>)
    requires LexLess(a, b)
    ensures !LexLess(b, a)
  {
    if LexLess(b, a) {
      LexTransitive(a, b, a);
      LexIrreflexive(a);
    }
  }

  lemma LexLeqTransitive(a: seq<int>, b: seq<int>, c: seq<int>)
    requires LexLeq(a, b) && LexLeq(b, c)
    ensures LexLeq(a, c)
  {
    LexTotal(a, b);
    LexTotal(b, c);
    if LexLess(c, a) {
      if a == b {
      } else if b == c {
      } else {
        LexTransitive(a, b, c);
        LexAsymmetric(a, c);
      }
    }
  }

  /** One-component keys compare as their components. */
  lemma LexSingleton(a: int, b: int)
    ensures LexLeq([a], [b]) <==> a <= b
  {
    assert [a][1..] == [] && [b][1..] == [];
    assert LexLess([b], [a]) <==> b < a;
  }

  /** The sort key of a string: its code points. */
  function Codes(s: string): (k: seq<int>)
    ensures |k| == |s|
    ensures forall i | 0 <= i < |s| :: k[i] == s[i] as int
  {
    seq(|s|, i requires 0 <= i < |s| => s[i] as int)
  }

  lemma CodesInjective(s: string, t: string)
    requires Codes(s) == Codes(t)
    ensures s == t
  {
    assert |s| == |t|;
    forall i | 0 <= i < |s| ensures s[i] == t[i] {
      assert Codes(s)[i] == Codes(t)[i];
    }
  }

  ghost predicate Sorted<T>(s: seq<T>, key: T -> seq<int>)
  {
    forall i, j | 0 <= i < j < |s| :: LexLeq(key(s[i]), key(s[j]))
  }

  /** Elements of `s` whose key is `k`, in their order in `s`. */
  function WithKey<T>(s: seq<T>, key: T -> seq<int>, k: seq<int>): seq<T>
  {
    if |s| == 0 then []
    else (if key(s[0]) == k then [s[0]] else []) + WithKey(s[1..], key, k)
  }

  /** Places `x` after every element whose key is not greater than its own. */
  function Insert<T>(x: T, s: seq<T>, key: T -> seq<int>): seq<T>
  {
    if |s| == 0 then [x]
    else if LexLess(key(x), key(s[0])) then [x] + s
    else [s[0]] + Insert(x, s[1..], key)
  }

  /** `sorted(s, key=key)` */
  function SortBy<T>(s: seq<T>, key: T -> seq<int>): seq<T>
  {
    if |s| == 0 then [] else Insert(s[|s| - 1], SortBy(s[..|s| - 1], key), key)
  }

  lemma {:induction false} InsertPermutes<T>(x: T, s: seq<T>, key: T -> seq<int>)
    ensures multiset(Insert(x, s, key)) == multiset(s) + multiset{x}
  {
    if |s| > 0 && !LexLess(key(x), key(s[0])) {
      InsertPermutes(x, s[1..], key);
      assert s == [s[0]] + s[1..];
    }
  }

  lemma {:induction false} InsertSorted<T>(x: T, s: seq<T>, key: T -> seq<int>)
    requires Sorted(s, key)
    ensures Sorted(Insert(x, s, key), key)
  {
    var r := Insert(x, s, key);
    if |s| == 0 {
    } else if LexLess(key(x), key(s[0])) {
      forall i, j | 0 <= i < j < |r| ensures LexLeq(key(r[i]), key(r[j])) {
        if i == 0 {
          LexAsymmetric(key(x), key(s[0]));
          if j > 1 {
            LexLeqTransitive(key(x), key(s[0]), key(s[j - 1]));
          }
        }
      }
    } else {
      InsertSorted(x, s[1..], key);
      InsertPermutes(x, s[1..], key);
      var t := Insert(x, s[1..], key);
      forall i, j | 0 <= i < j < |r| ensures LexLeq(key(r[i]), key(r[j])) {
        if i == 0 {
          assert r[j] in multiset(t);
          assert r[j] in multiset(s[1..]) || r[j] == x;
          if r[j] != x {
            var k :| 0 <= k < |s[1..]| && s[1..][k] == r[j];
            assert s[k + 1] == r[j];
          }
        }
      }
    }
  }

  lemma {:induction false} SortPermutes<T>(s: seq<T>, key: T -> seq<int>)
    ensures multiset(SortBy(s, key)) == multiset(s)
  {
    if |s| > 0 {
      SortPermutes(s[..|s| - 1], key);
      InsertPermutes(s[|s| - 1], SortBy(s[..|s| - 1], key), key);
      assert s == s[..|s| - 1] + [s[|s| - 1]];
    }
  }

  lemma {:induction false} SortSorted<T>(s: seq<T>, key: T -> seq<int>)
    ensures Sorted(SortBy(s, key), key)
  {
    if |s| > 0 {
      SortSorted(s[..|s| - 1], key);
      InsertSorted(s[|s| - 1], SortBy(s[..|s| - 1], key), key);
    }
  }

  lemma {:induction false} WithKeyAppend<T>(a: seq<T>, b: seq<T>, key: T -> seq<int>, k: seq<int>)
    ensures WithKey(a + b, key, k) == WithKey(a, key, k) + WithKey(b, key, k)
  {
    if |a| > 0 {
      WithKeyAppend(a[1..], b, key, k);
      var head := if key(a[0]) == k then [a[0]] else [];
      assert (a + b)[0] == a[0];
      assert (a + b)[1..] == a[1..] + b;
      calc {
        WithKey(a + b, key, k);
        head + WithKey(a[1..] + b, key, k);
        head + (WithKey(a[1..], key, k) + WithKey(b, key, k));
        (head + WithKey(a[1..], key, k)) + WithKey(b, key, k);
      }
    } else {
      assert a + b == b;
    }
  }

  lemma {:induction false} WithKeyNoneBelow<T>(s: seq<T>, key: T -> seq<int>, k: seq<int>)
    requires Sorted(s, key)
    requires |s| > 0 && LexLess(k, key(s[0]))
    ensures WithKey(s, key, k) == []
  {
    LexIrreflexive(k);
    if |s| > 1 {
      assert LexLeq(key(s[0]), key(s[1]));
      LexTotal(key(s[0]), key(s[1]));
      if key(s[0]) != key(s[1]) {
        LexTransitive(k, key(s[0]), key(s[1]));
      }
      WithKeyNoneBelow(s[1..], key, k);
    }
  }

  lemma {:induction false} WithKeyInsert<T>(x: T, s: seq<T>, key: T -> seq<int>, k: seq<int>)
    requires Sorted(s, key)
    ensures WithKey(Insert(x, s, key), key, k)
         == WithKey(s, key, k) + (if key(x) == k then [x] else [])
  {
    if |s| == 0 {
    } else if LexLess(key(x), key(s[0])) {
      if key(x) == k {
        WithKeyNoneBelow(s, key, k);
      }
      assert ([x] + s)[1..] == s;
    } else {
      WithKeyInsert(x, s[1..], key, k);
    }
  }

  /** Stability: among equal keys the input order survives. */
  lemma {:induction false} SortStable<T>(s: seq<T>, key: T -> seq<int>, k: seq<int>)
    ensures WithKey(SortBy(s, key), key, k) == WithKey(s, key, k)
  {
    if |s| > 0 {
      var init := s[..|s| - 1];
      SortStable(init, key, k);
      SortSorted(init, key);
      WithKeyInsert(s[|s| - 1], SortBy(init, key), key, k);
      WithKeyAppend(init, [s[|s| - 1]], key, k);
      assert s == init + [s[|s| - 1]];
    }
  }

  ghost predicate KeyInjective<T>(s: seq<T>, key: T -> seq<int>)
  {
    forall x, y | x in s && y in s && key(x) == key(y) :: x == y
  }

  /** The first element of a sorted sequence has the least key. */
  lemma SortedHeadLeast<T>(a: seq<T>, key: T -> seq<int>, x: T)
    requires Sorted(a, key) && x in a
    ensures LexLeq(key(a[0]), key(x))
  {
    var i :| 0 <= i < |a| && a[i] == x;
    if i == 0 {
      LexIrreflexive(key(x));
    }
  }

  lemma SortedHeadsEqual<T>(a: seq<T>, b: seq<T>, key: T -> seq<int>)
    requires Sorted(a, key) && Sorted(b, key)
    requires |a| > 0 && multiset(a) == multiset(b)
    requires KeyInjective(a, key)
    ensures |b| > 0 && a[0] == b[0]
  {
    assert a[0] in multiset(b);
    assert |b| > 0;
    assert b[0] in multiset(a);
    SortedHeadLeast(b, key, a[0]);
    SortedHeadLeast(a, key, b[0]);
    LexTotal(key(a[0]), key(b[0]));
  }

  /** Two sorted arrangements of the same elements are the same sequence,
      when no two different elements share a key. */
  lemma {:induction false} SortedUnique<T>(a: seq<T>, b: seq<T>, key: T -> seq<int>)
    requires Sorted(a, key) && Sorted(b, key)
    requires multiset(a) == multiset(b)
    requires KeyInjective(a, key)
    ensures a == b
  {
    if |a| == 0 {
      assert |b| == |multiset(b)| == 0;
    } else {
      SortedHeadsEqual(a, b, key);
      var a', b' := a[1..], b[1..];
      assert a == [a[0]] + a' && b == [b[0]] + b';
      assert multiset(a') == multiset(b') by {
        assert multiset(a) == multiset{a[0]} + multiset(a');
        assert multiset(b) == multiset{b[0]} + multiset(b');
        forall e ensures multiset(a')[e] == multiset(b')[e] {
          assert multiset(a)[e] == multiset{a[0]}[e] + multiset(a')[e];
          assert multiset(b)[e] == multiset{b[0]}[e] + multiset(b')[e];
        }
      }
      SortedTail(a, key);
      SortedTail(b, key);
      InjectiveTail(a, key);
      SortedUnique(a', b', key);
    }
  }

  lemma SortedTail<T>(a: seq<T>, key: T -> seq<int>)
    requires Sorted(a, key) && |a| > 0
    ensures Sorted(a[1..], key)
  {
    forall i, j | 0 <= i < j < |a[1..]| ensures LexLeq(key(a[1..][i]), key(a[1..][j])) {
      assert a[1..][i] == a[i + 1] && a[1..][j] == a[j + 1];
    }
  }

  lemma InjectiveTail<T>(a: seq<T>, key: T -> seq<int>)
    requires KeyInjective(a, key) && |a| > 0
    ensures KeyInjective(a[1..], key)
  {
    forall x, y | x in a[1..] && y in a[1..] && key(x) == key(y) ensures x == y {
      assert x in a && y in a;
    }
  }

  /** Sorting forgets the input order when keys identify elements. */
  lemma PermutationInvariant<T>(p: seq<T>, q: seq<T>, key: T -> seq<int>)
    requires multiset(p) == multiset(q)
    requires KeyInjective(p, key)
    ensures SortBy(p, key) == SortBy(q, key)
  {
    SortPermutes(p, key);
    SortPermutes(q, key);
    SortSorted(p, key);
    SortSorted(q, key);
    var a := SortBy(p, key);
    forall x, y | x in a && y in a && key(x) == key(y) ensures x == y {
      assert x in multiset(p) && y in multiset(p);
      assert x in p && y in p;
    }
    SortedUnique(a, SortBy(q, key), key);
  }

  /** Equal sort keys are equal sequences, since each is `<=` the other. */
  lemma LexAntisymmetric(a: seq<int>, b: seq<int>)
    requires LexLeq(a, b) && LexLeq(b, a)
    ensures a == b
  {
    LexTotal(a, b);
  }

  lemma {:induction false} WithKeyMembers<T>(s: seq<T>, key: T -> seq<int>, k: seq<int>)
    ensures forall x | x in WithKey(s, key, k) :: x in s && key(x) == k
    ensures forall x | x in s && key(x) == k :: x in WithKey(s, key, k)
  {
    if |s| > 0 {
      WithKeyMembers(s[1..], key, k);
      assert forall x | x in s :: x == s[0] || x in s[1..];
    }
  }

  /** A group holds no element more often than the whole. */
  lemma {:induction false} WithKeyMultiset<T>(s: seq<T>, key: T -> seq<int>, k: seq<int>)
    ensures multiset(WithKey(s, key, k)) <= multiset(s)
  {
    if |s| > 0 {
      WithKeyMultiset(s[1..], key, k);
      assert s == [s[0]] + s[1..];
    }
  }

  /** Appending an element extends its own group only. */
  lemma WithKeySnoc<T>(s: seq<T>, x: T, key: T -> seq<int>, k: seq<int>)
    ensures WithKey(s + [x], key, k) == if key(x) == k then WithKey(s, key, k) + [x] else WithKey(s, key, k)
  {
    WithKeyAppend(s, [x], key, k);
    assert [x][1..] == [];
  }

  /** Grouping a group again keeps it whole under its own key and empties
      it under any other. */
  lemma {:induction false} WithKeyOfWithKey<T>(s: seq<T>, key: T -> seq<int>, k: seq<int>, k': seq<int>)
    ensures WithKey(WithKey(s, key, k), key, k') == if k == k' then WithKey(s, key, k) else []
  {
    if |s| > 0 {
      WithKeyOfWithKey(s[1..], key, k, k');
      var head := if key(s[0]) == k then [s[0]] else [];
      WithKeyAppend(head, WithKey(s[1..], key, k), key, k');
    }
  }

  /** Each element occurs in its own group as often as in the whole. */
  lemma {:induction false} WithKeyCount<T>(s: seq<T>, key: T -> seq<int>, x: T)
    ensures multiset(WithKey(s, key, key(x)))[x] == multiset(s)[x]
  {
    if |s| > 0 {
      WithKeyCount(s[1..], key, x);
      assert s == [s[0]] + s[1..];
    }
  }

  /** Sequences with the same groups hold the same elements. */
  lemma SameGroupsPermutation<T>(a: seq<T>, b: seq<T>, key: T -> seq<int>)
    requires forall k :: WithKey(a, key, k) == WithKey(b, key, k)
    ensures multiset(a) == multiset(b)
  {
    forall x ensures multiset(a)[x] == multiset(b)[x] {
      WithKeyCount(a, key, x);
      WithKeyCount(b, key, x);
      assert WithKey(a, key, key(x)) == WithKey(b, key, key(x));
    }
  }

  /** Dropping the first element drops it from its own group only. */
  lemma WithKeyTail<T>(s: seq<T>, key: T -> seq<int>, k: seq<int>)
    requires |s| > 0
    ensures WithKey(s[1..], key, k) == if key(s[0]) == k then WithKey(s, key, k)[1..] else WithKey(s, key, k)
  {
  }

  /** A sorted sequence is determined by its groups: two sorted sequences
      whose elements of each key come in the same order are equal. */
  lemma {:induction false} SortedByGroups<T>(a: seq<T>, b: seq<T>, key: T -> seq<int>)
    requires Sorted(a, key) && Sorted(b, key)
    requires forall k :: WithKey(a, key, k) == WithKey(b, key, k)
    ensures a == b
  {
    SameGroupsPermutation(a, b, key);
    assert |a| == |multiset(a)| == |multiset(b)| == |b|;
    if |a| > 0 {
      var k0, k1 := key(a[0]), key(b[0]);
      WithKeyMembers(a, key, k1);
      WithKeyMembers(b, key, k0);
      assert WithKey(a, key, k0)[0] == a[0];
      assert WithKey(b, key, k1)[0] == b[0];
      var x :| x in WithKey(b, key, k0);
      SortedHeadLeast(b, key, x);
      var y :| y in WithKey(a, key, k1);
      SortedHeadLeast(a, key, y);
      LexAntisymmetric(k0, k1);
      forall k ensures WithKey(a[1..], key, k) == WithKey(b[1..], key, k) {
        WithKeyTail(a, key, k);
        WithKeyTail(b, key, k);
      }
      SortedTail(a, key);
      SortedTail(b, key);
      SortedByGroups(a[1..], b[1..], key);
      assert a == [a[0]] + a[1..] && b == [b[0]] + b[1..];
    }
  }

  /** Two sorted runs, the first nowhere above the second, make a sorted
      sequence. */
  lemma SortedConcat<T>(a: seq<T>, b: seq<T>, key: T -> seq<int>)
    requires Sorted(a, key) && Sorted(b, key)
    requires forall x, y | x in a && y in b :: LexLeq(key(x), key(y))
    ensures Sorted(a + b, key)
  {
    var s := a + b;
    forall i, j | 0 <= i < j < |s| ensures LexLeq(key(s[i]), key(s[j])) {
      if j < |a| {
        assert s[i] == a[i] && s[j] == a[j];
      } else if i >= |a| {
        assert s[i] == b[i - |a|] && s[j] == b[j - |a|];
      } else {
        assert s[i] in a && s[j] in b;
      }
    }
  }

  /** Elements of one key are sorted in any order. */
  lemma SameKeySorted<T>(s: seq<T>, key: T -> seq<int>, k: seq<int>)
    requires forall x | x in s :: key(x) == k
    ensures Sorted(s, key)
  {
    LexIrreflexive(k);
    assert forall i | 0 <= i < |s| :: s[i] in s;
  }

  /** In a sorted sequence nothing after the first `n` has a smaller key than
      anything among them. */
  lemma SortedPrefixLowest<T>(s: seq<T>, n: nat, key: T -> seq<int>, x: T, y: T)
    requires Sorted(s, key) && n <= |s|
    requires x in s[..n] && y in s && y !in s[..n]
    ensures LexLeq(key(x), key(y))
  {
    var p :| 0 <= p < n && s[..n][p] == x;
    var q :| 0 <= q < |s| && s[q] == y;
    assert forall j | 0 <= j < n :: s[..n][j] == s[j];
    assert p < q;
  }

  /** `sorted(names)` for strings. */
  function SortStrings(s: seq<string>): seq<string>
  {
    SortBy(s, Codes)
  }

  /** Sorting strings forgets their input order entirely. */
  lemma SortStringsPermutation(p: seq<string>, q: seq<string>)
    requires multiset(p) == multiset(q)
    ensures SortStrings(p) == SortStrings(q)
  {
    forall x, y | x in p && y in p && Codes(x) == Codes(y) ensures x == y {
      CodesInjective(x, y);
    }
    PermutationInvariant(p, q, Codes);
  }
}
