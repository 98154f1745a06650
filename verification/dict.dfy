/** Python dictionaries with string keys, as ordered association lists: the
    code relies on insertion order whenever it iterates a dictionary, and
    JSON objects come back from `json.load` as such dictionaries. */
module Dict {
  import opened Py

  type Dict<V> = seq<(string, V)>

  function Keys<V>(d: Dict<V>): set<string>
  {
    set i | 0 <= i < |d| :: d[i].0
  }

  /** `list(d.keys())`, in insertion order. */
  function KeyList<V>(d: Dict<V>): (ks: seq<string>)
    ensures |ks| == |d| && forall i | 0 <= i < |d| :: ks[i] == d[i].0
  {
    if |d| == 0 then [] else [d[0].0] + KeyList(d[1..])
  }

  predicate DistinctKeys<V>(d: Dict<V>)
  {
    forall i, j | 0 <= i < j < |d| :: d[i].0 != d[j].0
  }

  lemma KeysCons<V>(d: Dict<V>)
    requires |d| > 0
    ensures Keys(d) == {d[0].0} + Keys(d[1..])
  {
    forall x | x in Keys(d) ensures x in {d[0].0} + Keys(d[1..]) {
      var i :| 0 <= i < |d| && d[i].0 == x;
      if i > 0 { assert d[1..][i - 1].0 == x; }
    }
    forall x | x in Keys(d[1..]) ensures x in Keys(d) {
      var i :| 0 <= i < |d[1..]| && d[1..][i].0 == x;
      assert d[i + 1].0 == x;
    }
  }

  lemma DistinctTail<V>(d: Dict<V>)
    requires DistinctKeys(d) && |d| > 0
    ensures DistinctKeys(d[1..]) && d[0].0 !in Keys(d[1..])
  {
    forall a, b | 0 <= a < b < |d[1..]| ensures d[1..][a].0 != d[1..][b].0 {
      assert d[1..][a] == d[a + 1] && d[1..][b] == d[b + 1];
    }
    forall i | 0 <= i < |d[1..]| ensures d[1..][i].0 != d[0].0 {
      assert d[1..][i] == d[i + 1];
    }
  }

  lemma DistinctCons<V>(x: (string, V), d: Dict<V>)
    requires DistinctKeys(d) && x.0 !in Keys(d)
    ensures DistinctKeys([x] + d)
  {
    forall i, j | 0 <= i < j < |[x] + d| ensures ([x] + d)[i].0 != ([x] + d)[j].0 {
      assert ([x] + d)[j] == d[j - 1];
      if i == 0 {
        assert d[j - 1].0 in Keys(d);
      } else {
        assert ([x] + d)[i] == d[i - 1];
      }
    }
  }

  /** `d.get(k)`: the value stored under `k`, if any. */
  function Get<V>(d: Dict<V>, k: string): (r: Option<V>)
    ensures r.None? <==> k !in Keys(d)
    ensures r.Some? ==> exists i | 0 <= i < |d| :: d[i] == (k, r.value)
  {
    if |d| == 0 then None
    else
      KeysCons(d);
      if d[0].0 == k then
        assert d[0] == (k, d[0].1);
        Some(d[0].1)
      else
        var r := Get(d[1..], k);
        assert r.Some? ==> exists i | 0 <= i < |d| :: d[i] == (k, r.value) by {
          if r.Some? {
            var i :| 0 <= i < |d[1..]| && d[1..][i] == (k, r.value);
            assert d[i + 1] == (k, r.value);
          }
        }
        r
  }

  /** `d[k] = v`: overwrites in place when `k` is present, appends otherwise. */
  function Store<V>(d: Dict<V>, k: string, v: V): (r: Dict<V>)
    ensures Keys(r) == Keys(d) + {k}
    ensures DistinctKeys(d) ==> DistinctKeys(r)
  {
    if |d| == 0 then
      assert [(k, v)][1..] == [];
      KeysCons([(k, v)]);
      [(k, v)]
    else
      var head := if d[0].0 == k then (k, v) else d[0];
      var rest := if d[0].0 == k then d[1..] else Store(d[1..], k, v);
      var r := [head] + rest;
      assert r[0] == head && r[1..] == rest;
      KeysCons(d);
      KeysCons(r);
      assert DistinctKeys(d) ==> DistinctKeys(r) by {
        if DistinctKeys(d) {
          DistinctTail(d);
          DistinctCons(head, rest);
        }
      }
      r
  }

  /** Reading back after `d[k] = v`: `k` maps to `v`, every other key to what
      it mapped to before. */
  lemma {:induction false} StoreGet<V>(d: Dict<V>, k: string, v: V, k': string)
    ensures Get(Store(d, k, v), k') == if k' == k then Some(v) else Get(d, k')
  {
    if |d| > 0 && d[0].0 != k {
      StoreGet(d[1..], k, v, k');
      var r := Store(d, k, v);
      assert r[1..] == Store(d[1..], k, v);
    }
  }

  /** One step of `d[k] = v` on a non-empty dictionary. */
  lemma StoreCons<V>(d: Dict<V>, k: string, v: V)
    requires |d| > 0
    ensures Store(d, k, v)[0] == if d[0].0 == k then (k, v) else d[0]
    ensures Store(d, k, v)[1..] == if d[0].0 == k then d[1..] else Store(d[1..], k, v)
  {
  }

  /** `d[k] = v` keeps the key order, appending `k` only when it is new. */
  lemma {:induction false} StoreKeyList<V>(d: Dict<V>, k: string, v: V)
    ensures KeyList(Store(d, k, v)) == if k in Keys(d) then KeyList(d) else KeyList(d) + [k]
  {
    var r := Store(d, k, v);
    if |d| > 0 {
      KeysCons(d);
      StoreCons(d, k, v);
      assert KeyList(r) == [r[0].0] + KeyList(r[1..]);
      assert KeyList(d) == [d[0].0] + KeyList(d[1..]);
      if d[0].0 != k {
        StoreKeyList(d[1..], k, v);
        if k !in Keys(d) {
          assert [d[0].0] + (KeyList(d[1..]) + [k]) == ([d[0].0] + KeyList(d[1..])) + [k];
        }
      }
    } else {
      assert r == [(k, v)];
    }
  }

  /** Storing a new key appends its entry. */
  lemma {:induction false} StoreFresh<V>(d: Dict<V>, k: string, v: V)
    requires k !in Keys(d)
    ensures Store(d, k, v) == d + [(k, v)]
  {
    if |d| > 0 {
      KeysCons(d);
      StoreCons(d, k, v);
      StoreFresh(d[1..], k, v);
      var r := Store(d, k, v);
      assert r == [r[0]] + r[1..];
      assert d + [(k, v)] == [d[0]] + (d[1..] + [(k, v)]);
    }
  }

  /** Every entry after `d[k] = v` was an entry before or is the new one. */
  lemma {:induction false} StoreMembers<V>(d: Dict<V>, k: string, v: V)
    ensures forall e | e in Store(d, k, v) :: e in d || e == (k, v)
  {
    if |d| > 0 {
      var r := Store(d, k, v);
      if d[0].0 != k {
        StoreMembers(d[1..], k, v);
      }
      assert r == [r[0]] + r[1..];
      assert forall e | e in d[1..] :: e in d;
    }
  }

  /** `d` without its entries for `k`. */
  function Without<V>(d: Dict<V>, k: string): (r: Dict<V>)
    ensures Keys(r) == Keys(d) - {k}
    ensures DistinctKeys(d) ==> DistinctKeys(r)
    ensures forall k' | k' != k :: Get(r, k') == Get(d, k')
  {
    if |d| == 0 then []
    else
      KeysCons(d);
      var rest := Without(d[1..], k);
      if d[0].0 == k then
        assert DistinctKeys(d) ==> DistinctKeys(rest) by {
          if DistinctKeys(d) { DistinctTail(d); }
        }
        rest
      else
        var r := [d[0]] + rest;
        assert r[0] == d[0] && r[1..] == rest;
        KeysCons(r);
        assert DistinctKeys(d) ==> DistinctKeys(r) by {
          if DistinctKeys(d) {
            DistinctTail(d);
            DistinctCons(d[0], rest);
          }
        }
        r
  }
}
