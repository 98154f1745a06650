/** The collaboration-required cooking task tools: rebuilding a task file so
    every agent starts with part of the chest items (`reconfigure_tasks`),
    hiding the recipes from agent "0" (`block_recipe_in_tasks`), and
    enumerating the remaining item combinations (`make_all_possible_tasks`).
    JSON files are read and written as already-decoded records. */
module CookingTasks {
  import opened Py
  import opened Text
  import opened Dict
  import opened Sorting
  import opened CookingInventory

  /** The fields of a cooking task that the tools read or write; all other
      fields of the JSON object pass through unchanged and are not
      represented. For `reconfigure_tasks`, an absent
      `blocked_access_to_recipe` or `goal` reads as the empty list or
      dictionary, as its `.get` calls default; `type` and `recipes` are
      always present here. */
  datatype CookingTask = CookingTask(
    kind: string,                    // "type"
    agentCount: Option<int>,         // "agent_count"
    humanCount: Option<int>,         // "human_count"
    target: Dict<int>,               // "target"
    recipes: Dict<seq<string>>,      // "recipes": dish to recipe steps
    initialInventory: seq<Counts>,   // "initial_inventory", indexed by agent
    goals: Dict<string>,             // "goal": agent key to goal text
    conversation: Option<string>,    // "conversation"
    blocked: seq<string>)            // "blocked_access_to_recipe"

  /** The catalog recipes of the known dishes among `items`, in their order. */
  function KnownRecipes(catalog: Catalog, items: seq<string>): (r: Dict<seq<string>>)
    ensures Keys(r) == set i | 0 <= i < |items| && items[i] in catalog :: items[i]
    ensures forall d | d in Keys(r) :: d in catalog && Get(r, d) == Some(catalog[d].recipe)
  {
    if |items| == 0 then []
    else
      var prev := KnownRecipes(catalog, items[..|items| - 1]);
      var last := items[|items| - 1];
      assert forall i | 0 <= i < |items| - 1 :: items[..|items| - 1][i] == items[i];
      if last in catalog then
        var r := Store(prev, last, catalog[last].recipe);
        assert forall d :: Get(r, d) == if d == last then Some(catalog[last].recipe) else Get(prev, d) by {
          forall d { StoreGet(prev, last, catalog[last].recipe, d); }
        }
        r
      else prev
  }

  /** One appended recipe block of a rewritten goal. */
  function RecipeBlock(item: string, recipe: seq<string>): string
  {
    "Recipe for " + item + ":\n" + ListRepr(recipe)
  }

  function RecipeBlocks(recipes: Dict<seq<string>>): (r: seq<string>)
    ensures |r| == |recipes|
    ensures forall i | 0 <= i < |r| :: r[i] == RecipeBlock(recipes[i].0, recipes[i].1)
  {
    seq(|recipes|, i requires 0 <= i < |recipes| => RecipeBlock(recipes[i].0, recipes[i].1))
  }

  /** One goal as `reconfigure_tasks` rewrites it: its first line, then every
      recipe block unless the agent's key is blocked from the recipes. */
  function RewriteGoal(key: string, goal: string, blocked: seq<string>, recipes: Dict<seq<string>>): (g: string)
    ensures StartsWith(g, BeforeFirst(goal, '\n'))
    ensures key in blocked ==> g == BeforeFirst(goal, '\n')
    ensures key !in blocked ==>
      forall i | 0 <= i < |recipes| :: Contains(g, RecipeBlock(recipes[i].0, recipes[i].1))
  {
    var first := BeforeFirst(goal, '\n');
    if key in blocked then first
    else
      var tail := Concat(RecipeBlocks(recipes));
      var g := first + tail;
      assert g[..|first|] == first;
      assert forall i | 0 <= i < |recipes| :: Contains(g, RecipeBlock(recipes[i].0, recipes[i].1)) by {
        forall i | 0 <= i < |recipes| ensures Contains(g, RecipeBlock(recipes[i].0, recipes[i].1)) {
          ConcatContains(RecipeBlocks(recipes), i);
          ContainsAfterPrefix(first, tail, RecipeBlocks(recipes)[i]);
        }
      }
      g
  }

  /** The goal loop of `reconfigure_tasks`: same keys in the same order. */
  function RewriteGoals(goals: Dict<string>, blocked: seq<string>, recipes: Dict<seq<string>>): (r: Dict<string>)
    ensures KeyList(r) == KeyList(goals)
    ensures forall i | 0 <= i < |r| :: r[i].1 == RewriteGoal(goals[i].0, goals[i].1, blocked, recipes)
  {
    seq(|goals|, i requires 0 <= i < |goals| => (goals[i].0, RewriteGoal(goals[i].0, goals[i].1, blocked, recipes)))
  }

  /** The collaboration test: every agent's total is non-zero. */
  predicate Collaborative(agents: seq<Counts>)
  {
    forall j | 0 <= j < |agents| :: Total(agents[j]) != 0
  }

  /** `num_agents`, or the task's own `agent_count + human_count` when the
      caller passed none. */
  function AgentsFor(task: CookingTask, numAgents: Option<int>): int
  {
    match numAgents
    case Some(n) => n
    case None =>
      (match task.agentCount case Some(a) => a case None => 0)
        + (match task.humanCount case Some(h) => h case None => 0)
  }

  /** The starting inventories `reconfigure_tasks` computes for a task with
      `n` agents. */
  function SplitFor(catalog: Catalog, task: CookingTask, n: int): Outcome<seq<Counts>>
  {
    SplitInventory(AggregateChestItems(catalog, KeyList(task.recipes)), n)
  }

  /** Whether `reconfigure_tasks` with `n` agents writes the task out. */
  predicate KeptWith(catalog: Catalog, task: CookingTask, n: int)
  {
    task.kind == "cooking" && SplitFor(catalog, task, n).Returns? && Collaborative(SplitFor(catalog, task, n).value)
  }

  /** The body of the loop of `reconfigure_tasks` for a cooking task, with
      `n` agents; `setCount` says whether the caller supplied `num_agents`,
      in which case it is also written into `agent_count`. */
  function ReconfigureTask(catalog: Catalog, task: CookingTask, n: int, setCount: bool, hellsKitchen: bool): (r: Outcome<Option<CookingTask>>)
    ensures r.Raises? <==> SplitFor(catalog, task, n).Raises?
    ensures n > 0 ==> r.Returns?
    ensures r.Returns? ==> (r.value.Some? <==> Collaborative(SplitFor(catalog, task, n).value))
    ensures r.Returns? && r.value.Some? ==>
      var t := r.value.value;
      && t.kind == task.kind
      && t.initialInventory == SplitFor(catalog, task, n).value
      && Collaborative(t.initialInventory)
      && Keys(t.recipes) == (set d | d in Keys(task.recipes) && d in catalog)
      && t.recipes == KnownRecipes(catalog, KeyList(task.recipes))
      && t.agentCount == (if setCount then Some(n) else task.agentCount)
      && (hellsKitchen ==> t.goals == task.goals)
      && (!hellsKitchen ==> KeyList(t.goals) == KeyList(task.goals))
      && (!hellsKitchen ==> t.goals == RewriteGoals(task.goals, task.blocked, t.recipes))
      && t == task.(recipes := t.recipes, agentCount := t.agentCount,
                    initialInventory := t.initialInventory, goals := t.goals)
  {
    var items := KeyList(task.recipes);
    var newRecipes := KnownRecipes(catalog, items);
    assert (set i | 0 <= i < |items| && items[i] in catalog :: items[i]) == (set d | d in Keys(task.recipes) && d in catalog) by {
      forall d | d in Keys(task.recipes) && d in catalog
        ensures d in (set i | 0 <= i < |items| && items[i] in catalog :: items[i])
      {
        var i :| 0 <= i < |task.recipes| && task.recipes[i].0 == d;
        assert items[i] == d;
      }
    }
    match SplitFor(catalog, task, n)
    case Raises(e) => Raises(e)
    case Returns(agents) =>
      if !Collaborative(agents) then Returns(None)
      else
        Returns(Some(task.(
          recipes := newRecipes,
          agentCount := if setCount then Some(n) else task.agentCount,
          initialInventory := agents,
          goals := if hellsKitchen then task.goals else RewriteGoals(task.goals, task.blocked, newRecipes))))
  }

  /** The loop of `reconfigure_tasks` from a given task on. `numAgents`
      carries the count the loop currently holds: once a cooking task has
      been processed it holds a number, which every later task then uses. */
  function ReconfigureFrom(catalog: Catalog, tasks: Dict<CookingTask>, numAgents: Option<int>, hellsKitchen: bool, acc: Dict<CookingTask>): Outcome<Dict<CookingTask>>
    decreases |tasks|
  {
    if |tasks| == 0 then Returns(acc)
    else
      var (id, task) := tasks[0];
      if task.kind != "cooking" then ReconfigureFrom(catalog, tasks[1..], numAgents, hellsKitchen, acc)
      else
        var n := AgentsFor(task, numAgents);
        match ReconfigureTask(catalog, task, n, numAgents.Some?, hellsKitchen)
        case Raises(e) => Raises(e)
        case Returns(kept) =>
          var acc' := if kept.Some? then Store(acc, id, kept.value) else acc;
          ReconfigureFrom(catalog, tasks[1..], Some(n), hellsKitchen, acc')
  }

  /** `reconfigure_tasks(task_path, new_task_path, num_agents, hells_kitchen)`
      over the decoded task file; the result is the decoded output file. */
  function ReconfigureTasks(catalog: Catalog, tasks: Dict<CookingTask>, numAgents: Option<int>, hellsKitchen: bool): Outcome<Dict<CookingTask>>
  {
    ReconfigureFrom(catalog, tasks, numAgents, hellsKitchen, [])
  }

  /** Everything in the output is a collaborative cooking task taken from
      the input under its own ID. */
  lemma {:induction false} ReconfigureOutputsCooking(catalog: Catalog, tasks: Dict<CookingTask>, numAgents: Option<int>, hellsKitchen: bool, acc: Dict<CookingTask>)
    requires forall i | 0 <= i < |acc| :: acc[i].1.kind == "cooking" && Collaborative(acc[i].1.initialInventory)
    ensures var r := ReconfigureFrom(catalog, tasks, numAgents, hellsKitchen, acc);
      r.Returns? ==>
        && Keys(r.value) <= Keys(acc) + Keys(tasks)
        && forall i | 0 <= i < |r.value| :: r.value[i].1.kind == "cooking" && Collaborative(r.value[i].1.initialInventory)
    decreases |tasks|
  {
    if |tasks| > 0 {
      KeysCons(tasks);
      var (id, task) := tasks[0];
      if task.kind == "cooking" {
        var n := AgentsFor(task, numAgents);
        var step := ReconfigureTask(catalog, task, n, numAgents.Some?, hellsKitchen);
        if step.Returns? {
          var acc' := if step.value.Some? then Store(acc, id, step.value.value) else acc;
          if step.value.Some? {
            forall i | 0 <= i < |acc'| ensures acc'[i].1.kind == "cooking" && Collaborative(acc'[i].1.initialInventory) {
              StoreElements(acc, id, step.value.value, i);
            }
          }
          ReconfigureOutputsCooking(catalog, tasks[1..], Some(n), hellsKitchen, acc');
        }
      } else {
        ReconfigureOutputsCooking(catalog, tasks[1..], numAgents, hellsKitchen, acc);
      }
    }
  }

  /** Every entry after `d[k] = v` is an old entry or `(k, v)`. */
  lemma {:induction false} StoreElements<V>(d: Dict<V>, k: string, v: V, i: int)
    ensures 0 <= i < |Store(d, k, v)| ==> Store(d, k, v)[i] == (k, v) || Store(d, k, v)[i] in d
  {
    if 0 <= i < |Store(d, k, v)| && |d| > 0 && d[0].0 != k && i > 0 {
      var r := Store(d, k, v);
      assert r[1..] == Store(d[1..], k, v);
      StoreElements(d[1..], k, v, i - 1);
    }
  }

  /** The IDs of the tasks that `reconfigure_tasks` keeps with `n` agents. */
  ghost function KeptIds(catalog: Catalog, tasks: Dict<CookingTask>, n: int): set<string>
  {
    set i | 0 <= i < |tasks| && KeptWith(catalog, tasks[i].1, n) :: tasks[i].0
  }

  lemma KeptIdsCons(catalog: Catalog, tasks: Dict<CookingTask>, n: int)
    requires |tasks| > 0
    ensures KeptIds(catalog, tasks, n)
      == (if KeptWith(catalog, tasks[0].1, n) then {tasks[0].0} else {}) + KeptIds(catalog, tasks[1..], n)
  {
    var rest := tasks[1..];
    forall x | x in KeptIds(catalog, tasks, n)
      ensures x in (if KeptWith(catalog, tasks[0].1, n) then {tasks[0].0} else {}) + KeptIds(catalog, rest, n)
    {
      var i :| 0 <= i < |tasks| && KeptWith(catalog, tasks[i].1, n) && tasks[i].0 == x;
      if i > 0 { assert rest[i - 1] == tasks[i]; }
    }
    forall x | x in KeptIds(catalog, rest, n) ensures x in KeptIds(catalog, tasks, n) {
      var i :| 0 <= i < |rest| && KeptWith(catalog, rest[i].1, n) && rest[i].0 == x;
      assert tasks[i + 1] == rest[i];
    }
  }

  /** With a fixed agent count, a task ID is in the output exactly when the
      input holds a cooking task under that ID whose split gives every agent
      something. */
  lemma {:induction false} ReconfigureKeepsExactly(catalog: Catalog, tasks: Dict<CookingTask>, n: int, hellsKitchen: bool, acc: Dict<CookingTask>)
    requires n > 0
    ensures var r := ReconfigureFrom(catalog, tasks, Some(n), hellsKitchen, acc);
      r.Returns? && Keys(r.value) == Keys(acc) + KeptIds(catalog, tasks, n)
    decreases |tasks|
  {
    if |tasks| > 0 {
      var (id, task) := tasks[0];
      KeptIdsCons(catalog, tasks, n);
      if task.kind == "cooking" {
        var step := ReconfigureTask(catalog, task, n, true, hellsKitchen);
        var acc' := if step.value.Some? then Store(acc, id, step.value.value) else acc;
        ReconfigureKeepsExactly(catalog, tasks[1..], n, hellsKitchen, acc');
      } else {
        ReconfigureKeepsExactly(catalog, tasks[1..], n, hellsKitchen, acc);
      }
    }
  }

  /** With a fixed agent count, every output task is split across exactly
      that many agents and records that count. */
  lemma {:induction false} ReconfigureSetsCount(catalog: Catalog, tasks: Dict<CookingTask>, n: int, hellsKitchen: bool, acc: Dict<CookingTask>)
    requires n > 0
    requires forall i | 0 <= i < |acc| :: |acc[i].1.initialInventory| == n && acc[i].1.agentCount == Some(n)
    ensures var r := ReconfigureFrom(catalog, tasks, Some(n), hellsKitchen, acc);
      r.Returns? && forall i | 0 <= i < |r.value| :: |r.value[i].1.initialInventory| == n && r.value[i].1.agentCount == Some(n)
    decreases |tasks|
  {
    if |tasks| > 0 {
      var (id, task) := tasks[0];
      if task.kind == "cooking" {
        var step := ReconfigureTask(catalog, task, n, true, hellsKitchen);
        var acc' := if step.value.Some? then Store(acc, id, step.value.value) else acc;
        forall i | 0 <= i < |acc'| ensures |acc'[i].1.initialInventory| == n && acc'[i].1.agentCount == Some(n) {
          if step.value.Some? { StoreElements(acc, id, step.value.value, i); }
        }
        ReconfigureSetsCount(catalog, tasks[1..], n, hellsKitchen, acc');
      } else {
        ReconfigureSetsCount(catalog, tasks[1..], n, hellsKitchen, acc);
      }
    }
  }

  /** Without an explicit count, the first cooking task's
      `agent_count + human_count` decides the split of every later task too:
      every output task is split across that many agents. */
  lemma ReconfigureUsesFirstCount(catalog: Catalog, tasks: Dict<CookingTask>, hellsKitchen: bool, first: nat)
    requires first < |tasks| && tasks[first].1.kind == "cooking"
    requires forall i | 0 <= i < first :: tasks[i].1.kind != "cooking"
    requires AgentsFor(tasks[first].1, None) > 0
    ensures var r := ReconfigureTasks(catalog, tasks, None, hellsKitchen);
      && r.Returns?
      && forall i | 0 <= i < |r.value| :: |r.value[i].1.initialInventory| == AgentsFor(tasks[first].1, None)
  {
    SkipToFirstCooking(catalog, tasks, hellsKitchen, first);
    var n := AgentsFor(tasks[first].1, None);
    var task := tasks[first].1;
    var step := ReconfigureTask(catalog, task, n, false, hellsKitchen);
    var acc' := if step.value.Some? then Store([], tasks[first].0, step.value.value) else [];
    assert forall i | 0 <= i < |acc'| :: |acc'[i].1.initialInventory| == n by {
      forall i | 0 <= i < |acc'| ensures |acc'[i].1.initialInventory| == n {
        if step.value.Some? { StoreElements([], tasks[first].0, step.value.value, i); }
      }
    }
    CountStays(catalog, tasks[first + 1..], n, hellsKitchen, acc');
  }

  lemma {:induction false} SkipToFirstCooking(catalog: Catalog, tasks: Dict<CookingTask>, hellsKitchen: bool, first: nat)
    requires first < |tasks| && tasks[first].1.kind == "cooking"
    requires forall i | 0 <= i < first :: tasks[i].1.kind != "cooking"
    ensures ReconfigureTasks(catalog, tasks, None, hellsKitchen)
      == ReconfigureFrom(catalog, tasks[first..], None, hellsKitchen, [])
  {
    if first > 0 {
      SkipToFirstCooking(catalog, tasks[1..], hellsKitchen, first - 1);
      assert tasks[1..][first - 1..] == tasks[first..];
    }
  }

  lemma {:induction false} CountStays(catalog: Catalog, tasks: Dict<CookingTask>, n: int, hellsKitchen: bool, acc: Dict<CookingTask>)
    requires n > 0
    requires forall i | 0 <= i < |acc| :: |acc[i].1.initialInventory| == n
    ensures var r := ReconfigureFrom(catalog, tasks, Some(n), hellsKitchen, acc);
      r.Returns? && forall i | 0 <= i < |r.value| :: |r.value[i].1.initialInventory| == n
    decreases |tasks|
  {
    if |tasks| > 0 {
      var (id, task) := tasks[0];
      if task.kind == "cooking" {
        var step := ReconfigureTask(catalog, task, n, true, hellsKitchen);
        var acc' := if step.value.Some? then Store(acc, id, step.value.value) else acc;
        forall i | 0 <= i < |acc'| ensures |acc'[i].1.initialInventory| == n {
          if step.value.Some? { StoreElements(acc, id, step.value.value, i); }
        }
        CountStays(catalog, tasks[1..], n, hellsKitchen, acc');
      } else {
        CountStays(catalog, tasks[1..], n, hellsKitchen, acc);
      }
    }
  }

  const BlockedGoalPrefix := "Collaborate with other agents around you to make "

  /** The body of the loop of `block_recipe_in_tasks`. */
  function BlockRecipe(task: CookingTask): (r: CookingTask)
    ensures r.blocked == ["0"]
    ensures Get(r.goals, "0") == Some(BlockedGoalPrefix + Join(", ", KeyList(task.recipes)) + ".")
    ensures forall k | k != "0" :: Get(r.goals, k) == Get(task.goals, k)
    ensures r == task.(blocked := r.blocked, goals := r.goals)
  {
    var goal := BlockedGoalPrefix + Join(", ", KeyList(task.recipes)) + ".";
    var goals := Store(task.goals, "0", goal);
    assert forall k :: Get(goals, k) == if k == "0" then Some(goal) else Get(task.goals, k) by {
      forall k { StoreGet(task.goals, "0", goal, k); }
    }
    task.(blocked := ["0"], goals := goals)
  }

  /** `block_recipe_in_tasks`: every task of the file, under the same IDs in
      the same order. */
  function BlockRecipeInTasks(tasks: Dict<CookingTask>): (r: Dict<CookingTask>)
    ensures KeyList(r) == KeyList(tasks)
    ensures forall i | 0 <= i < |r| :: r[i].1 == BlockRecipe(tasks[i].1)
  {
    seq(|tasks|, i requires 0 <= i < |tasks| => (tasks[i].0, BlockRecipe(tasks[i].1)))
  }

  /** `itertools.combinations(s, k)`: the `k`-element selections of `s` that
      keep its order, in lexicographic order of positions. */
  function Combinations<T>(s: seq<T>, k: nat): (cs: seq<seq<T>>)
    ensures forall i | 0 <= i < |cs| :: |cs[i]| == k && forall e | e in cs[i] :: e in s
    decreases |s|
  {
    if k == 0 then [[]]
    else if |s| == 0 then []
    else
      var tail := Combinations(s[1..], k);
      var withHead := seq(|Combinations(s[1..], k - 1)|, i requires 0 <= i < |Combinations(s[1..], k - 1)| =>
        [s[0]] + Combinations(s[1..], k - 1)[i]);
      assert forall i | 0 <= i < |withHead| :: forall e | e in withHead[i] :: e in s by {
        forall i, e | 0 <= i < |withHead| && e in withHead[i] ensures e in s {
          if e != s[0] { assert e in Combinations(s[1..], k - 1)[i]; assert e in s[1..]; }
        }
      }
      assert forall i | 0 <= i < |tail| :: forall e | e in tail[i] :: e in s by {
        forall i, e | 0 <= i < |tail| && e in tail[i] ensures e in s { assert e in s[1..]; }
      }
      withHead + tail
  }

  /** Positions of a sequence of length `n`, strictly increasing. */
  predicate Ascending(ps: seq<int>, n: int)
  {
    && (forall j | 0 <= j < |ps| :: 0 <= ps[j] < n)
    && (forall a, b | 0 <= a < b < |ps| :: ps[a] < ps[b])
  }

  /** The elements of `s` at the positions `ps`. */
  function Select<T>(s: seq<T>, ps: seq<int>): (r: seq<T>)
    requires forall j | 0 <= j < |ps| :: 0 <= ps[j] < |s|
    ensures |r| == |ps| && forall j | 0 <= j < |ps| :: r[j] == s[ps[j]]
  {
    seq(|ps|, j requires 0 <= j < |ps| => s[ps[j]])
  }

  /** Every position moved by `d`. */
  function Shift(ps: seq<int>, d: int): (r: seq<int>)
    ensures |r| == |ps| && forall j | 0 <= j < |ps| :: r[j] == ps[j] + d
  {
    seq(|ps|, j requires 0 <= j < |ps| => ps[j] + d)
  }

  /** A selection from the tail, with the head put in front, is a
      combination. */
  lemma WithHeadIn<T>(s: seq<T>, k: nat, x: seq<T>)
    requires k > 0 && |s| > 0 && x in Combinations(s[1..], k - 1)
    ensures [s[0]] + x in Combinations(s, k)
  {
    var prev := Combinations(s[1..], k - 1);
    var withHead := seq(|prev|, i requires 0 <= i < |prev| => [s[0]] + prev[i]);
    assert Combinations(s, k) == withHead + Combinations(s[1..], k);
    var i :| 0 <= i < |prev| && prev[i] == x;
    assert withHead[i] == [s[0]] + x;
  }

  /** A combination of the tail is a combination. */
  lemma WithoutHeadIn<T>(s: seq<T>, k: nat, x: seq<T>)
    requires k > 0 && |s| > 0 && x in Combinations(s[1..], k)
    ensures x in Combinations(s, k)
  {
    var prev := Combinations(s[1..], k - 1);
    var withHead := seq(|prev|, i requires 0 <= i < |prev| => [s[0]] + prev[i]);
    assert Combinations(s, k) == withHead + Combinations(s[1..], k);
  }

  /** A non-empty combination either takes the head and then a combination
      of the tail, or is a combination of the tail. */
  lemma CombinationCases<T>(s: seq<T>, k: nat, c: seq<T>)
    requires k > 0 && c in Combinations(s, k)
    ensures |s| > 0
    ensures c in Combinations(s[1..], k) || (|c| > 0 && c == [s[0]] + c[1..] && c[1..] in Combinations(s[1..], k - 1))
  {
    var prev := Combinations(s[1..], k - 1);
    var withHead := seq(|prev|, i requires 0 <= i < |prev| => [s[0]] + prev[i]);
    assert Combinations(s, k) == withHead + Combinations(s[1..], k);
    if c !in Combinations(s[1..], k) {
      var i :| 0 <= i < |withHead| && withHead[i] == c;
      assert c[1..] == prev[i];
    }
  }

  /** Every selection of `k` positions of `s`, kept in order, is one of its
      `k`-combinations. */
  lemma {:induction false} CombinationsComplete<T>(s: seq<T>, ps: seq<int>)
    requires Ascending(ps, |s|)
    ensures Select(s, ps) in Combinations(s, |ps|)
    decreases |s|
  {
    if |ps| == 0 {
      assert Select(s, ps) == [];
    } else if ps[0] == 0 {
      var qs := Shift(ps[1..], -1);
      assert Ascending(qs, |s| - 1) by {
        assert forall j | 0 <= j < |qs| :: qs[j] == ps[j + 1] - 1;
      }
      CombinationsComplete(s[1..], qs);
      assert Select(s, ps) == [s[0]] + Select(s[1..], qs);
      WithHeadIn(s, |ps|, Select(s[1..], qs));
    } else {
      var qs := Shift(ps, -1);
      assert forall j | 0 <= j < |ps| :: ps[j] >= ps[0];
      CombinationsComplete(s[1..], qs);
      assert Select(s, ps) == Select(s[1..], qs);
      WithoutHeadIn(s, |ps|, Select(s[1..], qs));
    }
  }

  /** Positions in the tail, moved past the head. */
  lemma SelectPastHead<T>(s: seq<T>, qs: seq<int>)
    requires |s| > 0 && Ascending(qs, |s| - 1)
    ensures Ascending(Shift(qs, 1), |s|) && Select(s, Shift(qs, 1)) == Select(s[1..], qs)
  {
  }

  /** The head's position, then positions in the tail moved past it. */
  lemma SelectWithHead<T>(s: seq<T>, qs: seq<int>)
    requires |s| > 0 && Ascending(qs, |s| - 1)
    ensures Ascending([0] + Shift(qs, 1), |s|)
    ensures Select(s, [0] + Shift(qs, 1)) == [s[0]] + Select(s[1..], qs)
  {
    var ps := [0] + Shift(qs, 1);
    assert forall j | 1 <= j < |ps| :: ps[j] == qs[j - 1] + 1;
  }

  /** The positions a `k`-combination of `s` was taken from. */
  lemma {:induction false} CombinationPositions<T>(s: seq<T>, k: nat, c: seq<T>) returns (ps: seq<int>)
    requires c in Combinations(s, k)
    ensures |ps| == k && Ascending(ps, |s|) && Select(s, ps) == c
    decreases |s|
  {
    if k == 0 {
      assert Combinations(s, k) == [[]];
      ps := [];
    } else {
      CombinationCases(s, k, c);
      if c in Combinations(s[1..], k) {
        var qs := CombinationPositions(s[1..], k, c);
        SelectPastHead(s, qs);
        ps := Shift(qs, 1);
      } else {
        var qs := CombinationPositions(s[1..], k - 1, c[1..]);
        SelectWithHead(s, qs);
        ps := [0] + Shift(qs, 1);
      }
    }
  }

  /** The `k`-combinations of `s` are exactly its selections at `k`
      strictly increasing positions. */
  lemma CombinationsAreSelections<T>(s: seq<T>, k: nat, c: seq<T>)
    ensures c in Combinations(s, k) <==>
      exists ps | |ps| == k && Ascending(ps, |s|) :: Select(s, ps) == c
  {
    if c in Combinations(s, k) {
      var ps := CombinationPositions(s, k, c);
    }
    if exists ps | |ps| == k && Ascending(ps, |s|) :: Select(s, ps) == c {
      var ps :| |ps| == k && Ascending(ps, |s|) && Select(s, ps) == c;
      CombinationsComplete(s, ps);
    }
  }

  lemma {:induction false} SingleInCombinations<T>(s: seq<T>, j: int)
    requires 0 <= j < |s|
    ensures [s[j]] in Combinations(s, 1)
  {
    var withHead := seq(|Combinations(s[1..], 0)|, i requires 0 <= i < |Combinations(s[1..], 0)| =>
      [s[0]] + Combinations(s[1..], 0)[i]);
    assert Combinations(s, 1) == withHead + Combinations(s[1..], 1);
    if j == 0 {
      assert withHead[0] == [s[0]];
    } else {
      SingleInCombinations(s[1..], j - 1);
    }
  }

  /** Any two positions `i < j` of `s` form one of its 2-combinations. */
  lemma {:induction false} PairInCombinations<T>(s: seq<T>, i: int, j: int)
    requires 0 <= i < j < |s|
    ensures [s[i], s[j]] in Combinations(s, 2)
  {
    var ones := Combinations(s[1..], 1);
    var withHead := seq(|ones|, n requires 0 <= n < |ones| => [s[0]] + ones[n]);
    assert Combinations(s, 2) == withHead + Combinations(s[1..], 2);
    if i == 0 {
      SingleInCombinations(s[1..], j - 1);
      var n :| 0 <= n < |ones| && ones[n] == [s[j]];
      assert withHead[n] == [s[0], s[j]];
    } else {
      PairInCombinations(s[1..], i - 1, j - 1);
    }
  }

  /** The item pairs whose tasks had already been run. */
  const AlreadyCompleted: seq<seq<string>> := [
    ["bread", "golden_apple"], ["golden_apple", "rabbit_stew"], ["bread", "cake"],
    ["baked_potato", "golden_apple"], ["baked_potato", "cake"], ["cooked_beef", "golden_apple"]]

  /** The item list the script's commented-out call enumerates. */
  const TestItems: seq<string> := ["bread", "golden_apple", "rabbit_stew", "cake", "baked_potato", "cooked_beef"]

  /** `set(tuple(sorted(comb)) for comb in already_completed)` */
  function SortedCompleted(): set<seq<string>>
  {
    set p | p in AlreadyCompleted :: SortStrings(p)
  }

  /** `set(combinations) - set(tuple(sorted(comb)) ...)` as written: a
      combination is removed only when it happens to be in sorted order. */
  function RemainingAsWritten(items: seq<string>, k: nat): set<seq<string>>
  {
    (set c | c in Combinations(items, k)) - SortedCompleted()
  }

  /** The exclusion the script means: a combination is removed when it is
      some completed pair in any order. */
  function Remaining(items: seq<string>, k: nat): set<seq<string>>
  {
    set c | c in Combinations(items, k) && SortStrings(c) !in SortedCompleted()
  }

  /** The corrected exclusion removes exactly the combinations that are a
      rearrangement of an already-completed pair. */
  lemma RemainingExcludesCompleted(items: seq<string>, k: nat, c: seq<string>)
    ensures c in Remaining(items, k) <==>
      c in Combinations(items, k) && forall p | p in AlreadyCompleted :: multiset(c) != multiset(p)
  {
    if c in Combinations(items, k) {
      if SortStrings(c) in SortedCompleted() {
        var p :| p in AlreadyCompleted && SortStrings(p) == SortStrings(c);
        SortPermutes(p, Codes);
        SortPermutes(c, Codes);
      }
      forall p | p in AlreadyCompleted && multiset(c) == multiset(p)
        ensures SortStrings(c) in SortedCompleted()
      {
        SortStringsPermutation(c, p);
      }
    }
  }

  lemma OutOfOrderPair()
    ensures !Sorted(["golden_apple", "baked_potato"], Codes)
  {
    var x := ["golden_apple", "baked_potato"];
    assert Codes(x[1])[0] == 98 && Codes(x[0])[0] == 103;
    assert LexLess(Codes(x[1]), Codes(x[0]));
  }

  lemma OutOfOrderPairNotExcluded()
    ensures ["golden_apple", "baked_potato"] !in SortedCompleted()
  {
    OutOfOrderPair();
    forall p | p in AlreadyCompleted ensures SortStrings(p) != ["golden_apple", "baked_potato"] {
      SortSorted(p, Codes);
    }
  }

  lemma GoldenBakedIsCombination()
    ensures ["golden_apple", "baked_potato"] in Combinations(TestItems, 2)
  {
    PairInCombinations(TestItems, 1, 4);
  }

  /** As written, the combination (golden_apple, baked_potato) of the test
      items survives although (baked_potato, golden_apple) was completed;
      the corrected exclusion removes it. */
  lemma RemainingAsWrittenKeepsCompleted()
    ensures ["golden_apple", "baked_potato"] in RemainingAsWritten(TestItems, 2)
    ensures multiset(["golden_apple", "baked_potato"]) == multiset(AlreadyCompleted[3])
    ensures ["golden_apple", "baked_potato"] !in Remaining(TestItems, 2)
  {
    var x := ["golden_apple", "baked_potato"];
    GoldenBakedIsCombination();
    OutOfOrderPairNotExcluded();
    var done := AlreadyCompleted[3];
    assert multiset(x) == multiset(done);
    SortStringsPermutation(x, done);
    assert SortStrings(x) in SortedCompleted();
  }

  /** `item + ", "` for every item, concatenated. */
  function Listing(items: seq<string>): string
  {
    Concat(seq(|items|, i requires 0 <= i < |items| => items[i] + ", "))
  }

  const GoalPrefix := "Collaborate with other agents around you to make "
  const ConversationPrefix := "Let's collaborate to make "

  /** `goal_str`: the goal of the agents that get no recipes. */
  function PlainGoal(items: seq<string>): string
  {
    GoalPrefix + Listing(items)
  }

  /** One recipe paragraph of `recipe_goal_str`. */
  function RecipeParagraph(catalog: Catalog, item: string): string
    requires item in catalog
  {
    "Recipe for " + item + ":\n" + ListRepr(catalog[item].recipe) + "\n"
  }

  /** `recipe_goal_str`: the plain goal followed by every item's recipe. */
  function RecipeGoal(catalog: Catalog, items: seq<string>): (g: string)
    requires forall i | 0 <= i < |items| :: items[i] in catalog
    ensures StartsWith(g, PlainGoal(items))
    ensures forall i | 0 <= i < |items| :: Contains(g, RecipeParagraph(catalog, items[i]))
  {
    var head := PlainGoal(items) + "The recipes are as follows:\n";
    var paragraphs := seq(|items|, i requires 0 <= i < |items| => RecipeParagraph(catalog, items[i]));
    var tail := Concat(paragraphs);
    var g := head + tail;
    assert g[..|PlainGoal(items)|] == PlainGoal(items);
    assert forall i | 0 <= i < |items| :: Contains(g, RecipeParagraph(catalog, items[i])) by {
      forall i | 0 <= i < |items| ensures Contains(g, RecipeParagraph(catalog, items[i])) {
        ConcatContains(paragraphs, i);
        ContainsAfterPrefix(head, tail, paragraphs[i]);
      }
    }
    g
  }

  /** The task ID: "multiagent_cooking", then "_" and each item, then
      "_partial_plan". */
  function PartialPlanId(items: seq<string>): (id: string)
    ensures StartsWith(id, "multiagent_cooking") && EndsWith(id, "_partial_plan")
  {
    var id := "multiagent_cooking" + Concat(seq(|items|, i requires 0 <= i < |items| => "_" + items[i])) + "_partial_plan";
    assert id[..18] == "multiagent_cooking";
    assert id[|id| - 13..] == "_partial_plan";
    id
  }

  /** `task["target"]`: every item with quantity 1. */
  function Targets(items: seq<string>): (t: Dict<int>)
    ensures Keys(t) == set i | 0 <= i < |items| :: items[i]
    ensures forall x | x in Keys(t) :: Get(t, x) == Some(1)
  {
    if |items| == 0 then []
    else
      var prev := Targets(items[..|items| - 1]);
      var last := items[|items| - 1];
      var t := Store(prev, last, 1);
      assert forall x :: Get(t, x) == if x == last then Some(1) else Get(prev, x) by {
        forall x { StoreGet(prev, last, 1, x); }
      }
      assert forall i | 0 <= i < |items| - 1 :: items[..|items| - 1][i] == items[i];
      t
  }

  /** Decimal renderings of distinct naturals differ. */
  lemma NatToStringInjective(a: nat, b: nat)
    requires NatToString(a) == NatToString(b)
    ensures a == b
  {
    ParseNatToString(a);
    ParseNatToString(b);
  }

  /** The keys `str(i)` for `i` in `range(n)`. */
  function AgentKeys(n: int): set<string>
  {
    set i | 0 <= i < n :: NatToString(i)
  }

  /** `{i: goal for i in range(n)}` with JSON's string keys. */
  function UniformGoals(n: nat, goal: string): (base: Dict<string>)
    ensures |base| == n && forall i | 0 <= i < n :: base[i] == (NatToString(i), goal)
  {
    seq(n, i requires 0 <= i < n => (NatToString(i), goal))
  }

  lemma UniformGoalsKeys(n: nat, goal: string)
    ensures Keys(UniformGoals(n, goal)) == AgentKeys(n)
    ensures forall i | 0 <= i < n :: Get(UniformGoals(n, goal), NatToString(i)) == Some(goal)
  {
    var base := UniformGoals(n, goal);
    forall x | x in Keys(base) ensures x in AgentKeys(n) {
      var j :| 0 <= j < |base| && base[j].0 == x;
      assert base[j] == (NatToString(j), goal);
      assert x == NatToString(j);
    }
    forall i | 0 <= i < n ensures NatToString(i) in Keys(base) && Get(base, NatToString(i)) == Some(goal) {
      assert base[i] == (NatToString(i), goal);
      assert NatToString(i) in Keys(base);
      var r := Get(base, NatToString(i));
      assert r.Some?;
      var j :| 0 <= j < |base| && base[j] == (NatToString(i), r.value);
      assert base[j] == (NatToString(j), goal);
    }
    forall x | x in AgentKeys(n) ensures x in Keys(base) {
      var i :| 0 <= i < n && NatToString(i) == x;
      assert base[i].0 == x;
    }
  }

  lemma PositiveNotZeroString(i: nat)
    requires i >= 1
    ensures NatToString(i) != "0"
  {
    if NatToString(i) == "0" {
      assert NatToString(0) == "0";
      NatToStringInjective(i, 0);
    }
  }

  /** The partial-plan goal map: every agent key `str(i)` gets the plain goal,
      then key "0" gets the goal with the recipes; with no agents at all the
      map holds key "0" alone. */
  function AgentGoals(numAgents: int, plain: string, withRecipes: string): (g: Dict<string>)
    ensures Get(g, "0") == Some(withRecipes)
    ensures forall i | 1 <= i < numAgents :: Get(g, NatToString(i)) == Some(plain)
    ensures Keys(g) == AgentKeys(numAgents) + {"0"}
  {
    var n: nat := if numAgents < 0 then 0 else numAgents;
    var base := UniformGoals(n, plain);
    var g := Store(base, "0", withRecipes);
    UniformGoalsKeys(n, plain);
    assert AgentKeys(n) == AgentKeys(numAgents);
    StoreGet(base, "0", withRecipes, "0");
    assert forall i | 1 <= i < numAgents :: Get(g, NatToString(i)) == Some(plain) by {
      forall i | 1 <= i < numAgents ensures Get(g, NatToString(i)) == Some(plain) {
        PositiveNotZeroString(i);
        StoreGet(base, "0", withRecipes, NatToString(i));
      }
    }
    g
  }

  predicate AllKnown(catalog: Catalog, items: seq<string>)
  {
    forall i | 0 <= i < |items| :: items[i] in catalog
  }

  /** The partial-plan task `make_all_possible_tasks` writes for one
      combination, under its ID. Splitting the chest items can raise first
      (no agents); an item missing from the catalog then raises `KeyError`
      when its recipe is looked up for the goal text. */
  function MakePartialPlanTask(catalog: Catalog, items: seq<string>, numAgents: int): (r: Outcome<(string, CookingTask)>)
    ensures r.Raises? ==> r.error == ValueError || r.error == KeyError
    ensures r == Raises(ValueError) <==> numAgents <= 0 && |AggregateChestItems(catalog, items)| > 0
    ensures r == Raises(KeyError) <==>
      !(numAgents <= 0 && |AggregateChestItems(catalog, items)| > 0)
      && !AllKnown(catalog, items)
    ensures r.Returns? ==> r.value.0 == PartialPlanId(items)
  {
    match MakeInitialInventory(catalog, items, numAgents)
    case Raises(e) => Raises(e)
    case Returns(inventory) =>
      if !AllKnown(catalog, items) then Raises(KeyError)
      else
        Returns((PartialPlanId(items), CookingTask(
          "cooking", Some(numAgents), None, Targets(items), KnownRecipes(catalog, items), inventory,
          AgentGoals(numAgents, PlainGoal(items), RecipeGoal(catalog, items)),
          Some(ConversationPrefix + Listing(items)), [])))
  }

  /** The contents of a generated task: agent "0" alone sees the recipes,
      every other agent gets the plain goal, and every item is a target. */
  lemma MakePartialPlanTaskContents(catalog: Catalog, items: seq<string>, numAgents: int)
    ensures var r := MakePartialPlanTask(catalog, items, numAgents);
      r.Returns? ==>
        var t := r.value.1;
        && AllKnown(catalog, items)
        && t.kind == "cooking" && t.agentCount == Some(numAgents)
        && (numAgents > 0 ==> |t.initialInventory| == numAgents)
        && Keys(t.target) == (set i | 0 <= i < |items| :: items[i])
        && Keys(t.recipes) == (set i | 0 <= i < |items| :: items[i])
        && Keys(t.goals) == AgentKeys(numAgents) + {"0"}
        && Get(t.goals, "0") == Some(RecipeGoal(catalog, items))
        && (forall i | 1 <= i < numAgents :: Get(t.goals, NatToString(i)) == Some(PlainGoal(items)))
        && t.conversation == Some(ConversationPrefix + Listing(items))
        && t.blocked == []
  {
  }

  /** The task loop over the remaining combinations in `order`, the
      iteration order of the Python set, which is not determined. */
  function MakeTasksFrom(catalog: Catalog, order: seq<seq<string>>, numAgents: int, acc: Dict<CookingTask>): Outcome<Dict<CookingTask>>
    decreases |order|
  {
    if |order| == 0 then Returns(acc)
    else
      match MakePartialPlanTask(catalog, order[0], numAgents)
      case Raises(e) => Raises(e)
      case Returns(entry) => MakeTasksFrom(catalog, order[1..], numAgents, Store(acc, entry.0, entry.1))
  }

  /** `make_all_possible_tasks(items, num_items, num_agents, output_file)`:
      the decoded output file, for the combinations visited in `order`. */
  function MakeAllPossibleTasks(catalog: Catalog, order: seq<seq<string>>, numAgents: int): Outcome<Dict<CookingTask>>
  {
    MakeTasksFrom(catalog, order, numAgents, [])
  }

  /** The IDs of the combinations in `order`. */
  function PlanIds(order: seq<seq<string>>): (ids: set<string>)
    ensures forall c | c in order :: PartialPlanId(c) in ids
    ensures forall x | x in ids :: exists c | c in order :: PartialPlanId(c) == x
  {
    if |order| == 0 then {}
    else
      var rest := PlanIds(order[1..]);
      assert forall x | x in rest :: exists c | c in order :: PartialPlanId(c) == x by {
        forall x | x in rest ensures exists c | c in order :: PartialPlanId(c) == x {
          var c :| c in order[1..] && PartialPlanId(c) == x;
          assert c in order;
        }
      }
      {PartialPlanId(order[0])} + rest
  }

  /** One step of the task loop when the combination's task is built. */
  lemma MakeTasksFromStep(catalog: Catalog, order: seq<seq<string>>, numAgents: int, acc: Dict<CookingTask>)
    requires numAgents > 0 && |order| > 0 && AllKnown(catalog, order[0])
    ensures MakePartialPlanTask(catalog, order[0], numAgents).Returns?
    ensures var acc' := Store(acc, PartialPlanId(order[0]), MakePartialPlanTask(catalog, order[0], numAgents).value.1);
      && MakeTasksFrom(catalog, order, numAgents, acc) == MakeTasksFrom(catalog, order[1..], numAgents, acc')
      && Keys(acc') == Keys(acc) + {PartialPlanId(order[0])}
  {
  }

  /** With agents and a catalog that knows every item, the file holds one
      task ID per combination visited. */
  lemma {:induction false} MakeTasksFromKeys(catalog: Catalog, order: seq<seq<string>>, numAgents: int, acc: Dict<CookingTask>)
    requires numAgents > 0
    requires forall c | c in order :: AllKnown(catalog, c)
    ensures MakeTasksFrom(catalog, order, numAgents, acc).Returns?
    ensures Keys(MakeTasksFrom(catalog, order, numAgents, acc).value) == Keys(acc) + PlanIds(order)
    decreases |order|
  {
    if |order| > 0 {
      assert order[0] in order;
      MakeTasksFromStep(catalog, order, numAgents, acc);
      var acc' := Store(acc, PartialPlanId(order[0]), MakePartialPlanTask(catalog, order[0], numAgents).value.1);
      assert forall c | c in order[1..] :: c in order;
      MakeTasksFromKeys(catalog, order[1..], numAgents, acc');
      UnionStep(Keys(acc), PartialPlanId(order[0]), PlanIds(order[1..]), PlanIds(order));
    }
  }

  lemma UnionStep(a: set<string>, x: string, b: set<string>, c: set<string>)
    requires c == {x} + b
    ensures (a + {x}) + b == a + c
  {
  }

  /** Whatever combinations of the items are visited, in whatever order,
      the file holds exactly their task IDs. */
  lemma MakeAllPossibleTasksKeys(catalog: Catalog, items: seq<string>, k: nat, order: seq<seq<string>>, numAgents: int)
    requires numAgents > 0
    requires forall i | 0 <= i < |items| :: items[i] in catalog
    requires forall c | c in order :: c in Combinations(items, k)
    ensures var r := MakeAllPossibleTasks(catalog, order, numAgents);
      && r.Returns?
      && (forall c | c in order :: PartialPlanId(c) in Keys(r.value))
      && (forall x | x in Keys(r.value) :: exists c | c in order :: PartialPlanId(c) == x)
  {
    forall c | c in order ensures AllKnown(catalog, c) {
      assert c in Combinations(items, k);
      forall i | 0 <= i < |c| ensures c[i] in catalog { assert c[i] in c; }
    }
    MakeTasksFromKeys(catalog, order, numAgents, []);
  }

  /** Visiting the set the script computes at its subtraction,
      `RemainingAsWritten`, in any order, the file holds exactly the task IDs
      of that set. */
  lemma MakeAllPossibleTasksAsWritten(catalog: Catalog, items: seq<string>, k: nat, order: seq<seq<string>>, numAgents: int)
    requires numAgents > 0
    requires forall i | 0 <= i < |items| :: items[i] in catalog
    requires forall c :: c in order <==> c in RemainingAsWritten(items, k)
    ensures var r := MakeAllPossibleTasks(catalog, order, numAgents);
      && r.Returns?
      && (forall c | c in RemainingAsWritten(items, k) :: PartialPlanId(c) in Keys(r.value))
      && (forall x | x in Keys(r.value) :: exists c | c in RemainingAsWritten(items, k) :: PartialPlanId(c) == x)
  {
    MakeAllPossibleTasksKeys(catalog, items, k, order, numAgents);
  }
}
