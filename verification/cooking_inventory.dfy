/** The chest-item bookkeeping shared by the collaboration-required cooking task
    generator: the recipe catalog, the aggregation of the chest items the
    requested dishes need, and their split across the agents' starting
    inventories. */
module CookingInventory {
  import opened Py
  import opened Dict

  /** An inventory: item name to quantity. */
  type Counts = Dict<int>

  /** `c.get(k, 0)` */
  function Amount(c: Counts, k: string): (q: int)
    ensures k !in Keys(c) ==> q == 0
  {
    match Get(c, k)
    case None => 0
    case Some(q) => q
  }

  /** `c[k] = c.get(k, 0) + q` */
  function Bump(c: Counts, k: string, q: int): (r: Counts)
    ensures Keys(r) == Keys(c) + {k}
    ensures forall k' :: Amount(r, k') == Amount(c, k') + (if k' == k then q else 0)
    ensures DistinctKeys(c) ==> DistinctKeys(r)
  {
    var r := Store(c, k, Amount(c, k) + q);
    assert forall k' :: Get(r, k') == if k' == k then Some(Amount(c, k) + q) else Get(c, k') by {
      forall k' { StoreGet(c, k, Amount(c, k) + q, k'); }
    }
    r
  }

  /** `c[k] = v`, read back through `Amount`. */
  lemma StoreAmount(c: Counts, k: string, v: int)
    ensures forall k' :: Amount(Store(c, k, v), k') == if k' == k then v else Amount(c, k')
  {
    forall k' { StoreGet(c, k, v, k'); }
  }

  /** A quantity map decoded from a JSON object, so without repeated keys. */
  type ChestItems = c: Counts | DistinctKeys(c) witness []

  /** The catalog entry of one dish: its recipe steps and the chest items its
      recipe consumes (`required_chest_items`, empty when the entry has none). */
  datatype CookingInfo = CookingInfo(recipe: seq<string>, requiredChestItems: ChestItems)

  /** `COOKING_ITEMS`: dish name to catalog entry. */
  type Catalog = map<string, CookingInfo>

  /** Adds every entry of `req` into `inv`, in order. */
  function AddAll(inv: Counts, req: Counts): (r: Counts)
    requires DistinctKeys(req)
    decreases |req|
    ensures Keys(r) == Keys(inv) + Keys(req)
    ensures DistinctKeys(inv) ==> DistinctKeys(r)
    ensures forall k :: Amount(r, k) == Amount(inv, k) + Amount(req, k)
  {
    if |req| == 0 then inv
    else
      KeysCons(req);
      DistinctTail(req);
      assert forall k :: Amount(req, k) == (if k == req[0].0 then req[0].1 else 0) + Amount(req[1..], k);
      AddAll(Bump(inv, req[0].0, req[0].1), req[1..])
  }

  /** Reference definition: how much of chest item `k` the known dishes among
      `items` need together. Unknown dishes need nothing. */
  function RequiredTotal(catalog: Catalog, items: seq<string>, k: string): int
  {
    if |items| == 0 then 0
    else
      var last := items[|items| - 1];
      RequiredTotal(catalog, items[..|items| - 1], k)
        + (if last in catalog then Amount(catalog[last].requiredChestItems, k) else 0)
  }

  /** Reference definition: the chest items any known dish among `items` needs. */
  function RequiredKeys(catalog: Catalog, items: seq<string>): set<string>
  {
    if |items| == 0 then {}
    else
      var last := items[|items| - 1];
      RequiredKeys(catalog, items[..|items| - 1])
        + (if last in catalog then Keys(catalog[last].requiredChestItems) else {})
  }

  /** The loop that builds `inventory` from the requested dishes. */
  function AggregateChestItems(catalog: Catalog, items: seq<string>): (inv: Counts)
    ensures DistinctKeys(inv)
    ensures Keys(inv) == RequiredKeys(catalog, items)
    ensures forall k :: Amount(inv, k) == RequiredTotal(catalog, items, k)
  {
    if |items| == 0 then []
    else
      var prev := AggregateChestItems(catalog, items[..|items| - 1]);
      var last := items[|items| - 1];
      if last in catalog then AddAll(prev, catalog[last].requiredChestItems) else prev
  }

  /** Sum of the quantities in one inventory. */
  function Total(c: Counts): int
  {
    if |c| == 0 then 0 else c[0].1 + Total(c[1..])
  }

  /** `count_items_in_inventory`: each agent's total, in agent order. */
  function Totals(agents: seq<Counts>): (t: seq<int>)
    ensures |t| == |agents|
  {
    seq(|agents|, j requires 0 <= j < |agents| => Total(agents[j]))
  }

  /** `numpy.argmin`: the first index holding the minimum. */
  function ArgMin(xs: seq<int>): (a: nat)
    requires |xs| > 0
    ensures a < |xs|
    ensures forall j | 0 <= j < |xs| :: xs[a] <= xs[j]
    ensures forall j | 0 <= j < a :: xs[j] > xs[a]
  {
    if |xs| == 1 then 0
    else
      var b := ArgMin(xs[..|xs| - 1]);
      assert forall j | 0 <= j < |xs| - 1 :: xs[..|xs| - 1][j] == xs[j];
      if xs[|xs| - 1] < xs[b] then |xs| - 1 else b
  }

  /** What agent `j` of `n` receives of an item with quantity `q > 1`. */
  function Share(q: int, n: int, j: int): int
    requires n > 0
  {
    q / n + (if j < q % n then 1 else 0)
  }

  predicate AllDistinct(agents: seq<Counts>)
  {
    forall j | 0 <= j < |agents| :: DistinctKeys(agents[j])
  }

  /** One iteration of the placement loop: a single unit goes to the first
      least-loaded agent, a larger quantity is split by div/rem, and a
      non-positive quantity is dropped. */
  function PlaceItem(agents: seq<Counts>, item: string, q: int): (r: seq<Counts>)
    requires |agents| > 0
    ensures |r| == |agents|
    ensures q < 1 ==> r == agents
  {
    var n := |agents|;
    if q == 1 then
      var a := ArgMin(Totals(agents));
      agents[a := Store(agents[a], item, 1)]
    else if q > 1 then
      seq(n, j requires 0 <= j < n =>
        var given := Store(agents[j], item, q / n);
        if j < q % n then Bump(given, item, 1) else given)
    else agents
  }

  /** What one iteration does: only `item` changes, a single unit lands on
      `numpy.argmin` of the totals, and a larger quantity is split evenly with
      the remainder going one each to the first agents. */
  lemma PlaceItemEffect(agents: seq<Counts>, item: string, q: int)
    requires |agents| > 0 && AllDistinct(agents)
    ensures var r := PlaceItem(agents, item, q);
      && AllDistinct(r)
      && (forall j | 0 <= j < |r| :: Keys(r[j]) <= Keys(agents[j]) + {item})
      && (forall j, k | 0 <= j < |r| && k != item :: Amount(r[j], k) == Amount(agents[j], k))
      && (q == 1 ==> forall j | 0 <= j < |r| ::
            Amount(r[j], item) == if j == ArgMin(Totals(agents)) then 1 else Amount(agents[j], item))
      && (q > 1 ==> forall j | 0 <= j < |r| :: Amount(r[j], item) == Share(q, |agents|, j))
  {
    var r := PlaceItem(agents, item, q);
    var n := |agents|;
    if q == 1 {
      var a := ArgMin(Totals(agents));
      assert r == agents[a := Store(agents[a], item, 1)];
      StoreAmount(agents[a], item, 1);
    } else if q > 1 {
      forall j | 0 <= j < n
        ensures DistinctKeys(r[j]) && Keys(r[j]) <= Keys(agents[j]) + {item}
        ensures forall k | k != item :: Amount(r[j], k) == Amount(agents[j], k)
        ensures Amount(r[j], item) == Share(q, n, j)
      {
        var given := Store(agents[j], item, q / n);
        StoreAmount(agents[j], item, q / n);
        assert r[j] == if j < q % n then Bump(given, item, 1) else given;
      }
    }
  }

  /** The placement loop over the aggregated inventory, in its key order. */
  function PlaceAll(agents: seq<Counts>, inv: Counts): (r: seq<Counts>)
    requires |agents| > 0
    ensures |r| == |agents|
    decreases |inv|
  {
    if |inv| == 0 then agents else PlaceAll(PlaceItem(agents, inv[0].0, inv[0].1), inv[1..])
  }

  /** `make_initial_inventory` after the aggregation: `num_agents` empty
      inventories, then the placement loop. `numpy.argmin` of the empty list
      of totals raises as soon as there is an item to place and no agent. */
  function SplitInventory(inv: Counts, numAgents: int): (r: Outcome<seq<Counts>>)
    ensures numAgents <= 0 && |inv| > 0 ==> r == Raises(ValueError)
    ensures numAgents <= 0 && |inv| == 0 ==> r == Returns([])
    ensures numAgents > 0 ==> r.Returns? && |r.value| == numAgents
  {
    if numAgents <= 0 then (if |inv| == 0 then Returns([]) else Raises(ValueError))
    else Returns(PlaceAll(seq(numAgents, _ => []), inv))
  }

  /** `make_initial_inventory(items, num_agents)` */
  function MakeInitialInventory(catalog: Catalog, items: seq<string>, numAgents: int): Outcome<seq<Counts>>
  {
    SplitInventory(AggregateChestItems(catalog, items), numAgents)
  }

  /** How much of `k` all agents hold together. */
  function SumOver(agents: seq<Counts>, k: string): int
  {
    if |agents| == 0 then 0 else SumOver(agents[..|agents| - 1], k) + Amount(agents[|agents| - 1], k)
  }

  lemma {:induction false} SumOverPrefixShares(agents: seq<Counts>, k: string, q: int, n: int, m: nat)
    requires n > 0 && q > 1 && m <= |agents| == n
    requires forall j | 0 <= j < n :: Amount(agents[j], k) == Share(q, n, j)
    ensures SumOver(agents[..m], k) == m * (q / n) + (if m < q % n then m else q % n)
  {
    if m > 0 {
      SumOverPrefixShares(agents, k, q, n, m - 1);
      assert agents[..m][..m - 1] == agents[..m - 1];
      assert (m - 1) * (q / n) + q / n == m * (q / n);
    }
  }

  lemma DivMod(q: int, n: int)
    requires n > 0
    ensures n * (q / n) + (if n < q % n then n else q % n) == q
  {
  }

  lemma SumOverShares(agents: seq<Counts>, k: string, q: int)
    requires |agents| > 0 && q > 1
    requires forall j | 0 <= j < |agents| :: Amount(agents[j], k) == Share(q, |agents|, j)
    ensures SumOver(agents, k) == q
  {
    var n := |agents|;
    assert agents[..n] == agents;
    SumOverPrefixShares(agents, k, q, n, n);
    DivMod(q, n);
  }

  lemma {:induction false} SumOverPoint(agents: seq<Counts>, k: string, a: int, v: int)
    requires forall j | 0 <= j < |agents| :: Amount(agents[j], k) == if j == a then v else 0
    ensures SumOver(agents, k) == if 0 <= a < |agents| then v else 0
  {
    if |agents| > 0 {
      var init := agents[..|agents| - 1];
      SumOverPoint(init, k, a, v);
    }
  }

  predicate Fresh(agents: seq<Counts>, inv: Counts)
  {
    forall j, i | 0 <= j < |agents| && 0 <= i < |inv| :: inv[i].0 !in Keys(agents[j])
  }

  /** What the placement loop does to one chest item `k`, for every agent. */
  ghost predicate PlacedAs(before: seq<Counts>, after: seq<Counts>, inv: Counts, k: string)
    requires |before| == |after| > 0
  {
    var n := |after|;
    if k !in Keys(inv) then
      forall j | 0 <= j < n :: Amount(after[j], k) == Amount(before[j], k)
    else
      var q := Amount(inv, k);
      && (q > 1 ==> forall j | 0 <= j < n :: Amount(after[j], k) == Share(q, n, j))
      && (q == 1 ==> SumOver(after, k) == 1 && forall j | 0 <= j < n :: 0 <= Amount(after[j], k) <= 1)
      && (q < 1 ==> forall j | 0 <= j < n :: Amount(after[j], k) == 0)
  }

  lemma {:induction false} PlaceAllEffect(agents: seq<Counts>, inv: Counts, k: string)
    requires |agents| > 0 && AllDistinct(agents) && DistinctKeys(inv) && Fresh(agents, inv)
    ensures AllDistinct(PlaceAll(agents, inv))
    ensures PlacedAs(agents, PlaceAll(agents, inv), inv, k)
    decreases |inv|
  {
    if |inv| > 0 {
      var item, q := inv[0].0, inv[0].1;
      var next := PlaceItem(agents, item, q);
      var rest := inv[1..];
      PlaceItemEffect(agents, item, q);
      DistinctTail(inv);
      KeysCons(inv);
      assert Fresh(next, rest) by {
        forall j, i | 0 <= j < |next| && 0 <= i < |rest| ensures rest[i].0 !in Keys(next[j]) {
          assert rest[i] == inv[i + 1];
          assert rest[i].0 in Keys(rest);
        }
      }
      PlaceAllEffect(next, rest, k);
      var r := PlaceAll(agents, inv);
      assert r == PlaceAll(next, rest);
      if k == item {
        assert Amount(inv, k) == q;
        assert forall j | 0 <= j < |agents| :: Amount(agents[j], item) == 0;
        assert k !in Keys(rest);
        if q == 1 {
          var a := ArgMin(Totals(agents));
          assert forall j | 0 <= j < |r| :: Amount(r[j], k) == if j == a then 1 else 0;
          SumOverPoint(r, k, a, 1);
        }
      } else if k in Keys(rest) {
        assert Amount(inv, k) == Amount(rest, k);
      } else {
        assert k !in Keys(inv);
      }
    }
  }

  /** The split as a whole: balance for quantities above one, conservation for
      every positive quantity, nothing for unknown items. */
  lemma SplitInventoryShares(inv: Counts, numAgents: int, k: string)
    requires DistinctKeys(inv) && numAgents > 0
    ensures var agents := SplitInventory(inv, numAgents).value;
      && |agents| == numAgents
      && (k !in Keys(inv) ==> forall j | 0 <= j < numAgents :: Amount(agents[j], k) == 0)
      && (Amount(inv, k) > 1 ==>
            forall j | 0 <= j < numAgents :: Amount(agents[j], k) == Share(Amount(inv, k), numAgents, j))
      && (Amount(inv, k) >= 1 ==> SumOver(agents, k) == Amount(inv, k))
      && (Amount(inv, k) == 1 ==> forall j | 0 <= j < numAgents :: 0 <= Amount(agents[j], k) <= 1)
      && (Amount(inv, k) < 1 ==> forall j | 0 <= j < numAgents :: Amount(agents[j], k) == 0)
  {
    var start: seq<Counts> := seq(numAgents, _ => []);
    assert forall j | 0 <= j < numAgents :: Keys(start[j]) == {};
    PlaceAllEffect(start, inv, k);
    var agents := PlaceAll(start, inv);
    if k in Keys(inv) {
      var q := Amount(inv, k);
      if q > 1 {
        SumOverShares(agents, k, q);
      }
    }
  }

  /** End to end: every chest item the requested dishes need in a positive
      quantity is handed out in full across the agents, and nothing else is. */
  lemma MakeInitialInventoryConserves(catalog: Catalog, items: seq<string>, numAgents: int, k: string)
    requires numAgents > 0
    ensures var r := MakeInitialInventory(catalog, items, numAgents);
      && r.Returns? && |r.value| == numAgents
      && (RequiredTotal(catalog, items, k) >= 1 ==> SumOver(r.value, k) == RequiredTotal(catalog, items, k))
      && (k !in RequiredKeys(catalog, items) ==> forall j | 0 <= j < numAgents :: Amount(r.value[j], k) == 0)
  {
    SplitInventoryShares(AggregateChestItems(catalog, items), numAgents, k);
  }
}
