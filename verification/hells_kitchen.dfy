/** The cooking task IDs, and the Hell's Kitchen generator: two agents who
    each hold the other's recipe, an integer difficulty rating per task, and
    a train/test split over disjoint sets of dishes. */
module HellsKitchen {
  import opened Py
  import opened Text
  import opened Dict
  import opened Sorting
  import opened CookingInventory
  import opened Counter
  import CookingTasks

  const IdPrefix := "multiagent_cooking_"
  const BlockedMarker := "_blocked_access_"
  const HellsKitchenSuffix := "_hells_kitchen"

  // ---------------------------------------------------------------------
  // Task IDs
  // ---------------------------------------------------------------------

  /** A target entry is ordered by its dish name: the keys of a dictionary
      are distinct, so the tuple comparison never reaches the counts. */
  function ItemKey(p: (string, int)): seq<int>
  {
    Codes(p.0)
  }

  /** `sorted(task["target"].items())` */
  function SortedTarget(target: Dict<int>): (r: Dict<int>)
    ensures multiset(r) == multiset(target)
    ensures Sorted(r, ItemKey)
  {
    SortPermutes(target, ItemKey);
    SortSorted(target, ItemKey);
    SortBy(target, ItemKey)
  }

  /** `f"{count}_{item}"` */
  function Quantity(p: (string, int)): string
  {
    IntToString(p.1) + "_" + p.0
  }

  function Quantities(pairs: Dict<int>): (qs: seq<string>)
    ensures |qs| == |pairs| && forall i | 0 <= i < |pairs| :: qs[i] == Quantity(pairs[i])
  {
    seq(|pairs|, i requires 0 <= i < |pairs| => Quantity(pairs[i]))
  }

  /** The tail of an ID naming the agents without recipe access, empty when
      no agent is blocked. */
  function BlockedSuffix(blocked: seq<string>): (s: string)
    ensures s == "" <==> |blocked| == 0
    ensures |blocked| > 0 ==> StartsWith(s, BlockedMarker)
  {
    if |blocked| == 0 then "" else BlockedMarker + Join("_", SortStrings(blocked))
  }

  /** `generate_task_id(task)`, from the task's target and blocked list. */
  function TaskId(target: Dict<int>, blocked: seq<string>): (id: string)
    ensures StartsWith(id, IdPrefix)
  {
    IdPrefix + Join("_", Quantities(SortedTarget(target))) + BlockedSuffix(blocked)
  }

  /** The blocked part is a suffix of its own: an ID with blocked agents is
      the unblocked ID with the sorted agent keys appended after the marker. */
  lemma TaskIdBlockedSuffix(target: Dict<int>, blocked: seq<string>)
    ensures TaskId(target, blocked) == TaskId(target, []) + BlockedSuffix(blocked)
    ensures |blocked| == 0 ==> TaskId(target, blocked) == TaskId(target, [])
    ensures |blocked| > 0 ==> EndsWith(TaskId(target, blocked), BlockedMarker + Join("_", SortStrings(blocked)))
  {
    var id := TaskId(target, blocked);
    var s := BlockedSuffix(blocked);
    assert id[|id| - |s|..] == s;
  }

  /** Listing the blocked agents in another order gives the same ID. */
  lemma TaskIdBlockedOrder(target: Dict<int>, b1: seq<string>, b2: seq<string>)
    requires multiset(b1) == multiset(b2)
    ensures TaskId(target, b1) == TaskId(target, b2)
  {
    SortStringsPermutation(b1, b2);
    assert |b1| == |multiset(b1)| == |b2|;
  }

  /** The dish names of a target dictionary identify its entries. */
  lemma DistinctItemKeys(target: Dict<int>)
    requires DistinctKeys(target)
    ensures KeyInjective(target, ItemKey)
  {
    forall x, y | x in target && y in target && ItemKey(x) == ItemKey(y) ensures x == y {
      CodesInjective(x.0, y.0);
      var i :| 0 <= i < |target| && target[i] == x;
      var j :| 0 <= j < |target| && target[j] == y;
      assert i == j;
    }
  }

  /** A target dictionary built in another insertion order gives the same ID. */
  lemma TaskIdTargetOrder(t1: Dict<int>, t2: Dict<int>, blocked: seq<string>)
    requires DistinctKeys(t1) && multiset(t1) == multiset(t2)
    ensures TaskId(t1, blocked) == TaskId(t2, blocked)
  {
    DistinctItemKeys(t1);
    PermutationInvariant(t1, t2, ItemKey);
  }

  /** `generate_hells_kitchen_task_id(task)`: the dish names in target order. */
  function HellsKitchenId(targets: seq<string>): (id: string)
    ensures StartsWith(id, IdPrefix) && EndsWith(id, HellsKitchenSuffix)
  {
    var id := IdPrefix + Join("_", targets) + HellsKitchenSuffix;
    assert id[|id| - |HellsKitchenSuffix|..] == HellsKitchenSuffix;
    id
  }

  // ---------------------------------------------------------------------
  // Hell's Kitchen tasks
  // ---------------------------------------------------------------------

  /** `difficulty_metrics` of a task. */
  datatype Difficulty = Difficulty(
    totalSteps: int,   // "total_recipe_steps"
    maxSteps: int,     // "max_steps_per_recipe"
    uniqueItems: int,  // "unique_target_items"
    score: int,        // "overall_difficulty_score"
    category: string)  // "difficulty_category"

  /** One Hell's Kitchen task as the generator writes it. */
  datatype HkTask = HkTask(
    conversation: Prose,            // "conversation", as `Render` writes it
    agentCount: int,                // "agent_count"
    target: seq<string>,            // "target": the two dishes, agent 0's first
    kind: string,                   // "type"
    timeout: int,
    recipes: Dict<seq<string>>,     // "recipes": dish to recipe steps
    blocked: seq<string>,           // "blocked_access_to_recipe"
    goals: Dict<Prose>,             // "goal": agent key to goal text
    taskType: string,               // "task_type"
    metrics: Option<Difficulty>,    // "difficulty_metrics", added by the split generator
    difficulty: Option<string>)     // "difficulty", added by the split generator

  /** The prose of a task, kept as the values it is filled in from: the
      opening line of the conversation, and the goal of an agent who makes
      `own` and holds the recipe of `partner`. */
  datatype Prose =
    | Conversation(first: string, second: string)
    | SwappedGoal(own: string, partner: string, partnerSteps: seq<string>)

  const GoalClosing :=
    "You must communicate effectively to exchange recipe information and complete both dishes."
    + " Note: You can only guide your partner with recipe steps. You cannot help with ingredient collection or cooking."

  /** The recipe text a goal hands over: the partner's dish and its steps. */
  function HandedRecipe(partner: string, steps: seq<string>): string
  {
    "Recipe for " + partner + ":\n" + Join("\n", steps)
  }

  function GoalOpening(own: string, partner: string): string
  {
    "You need to make " + own + ", but you don't have the recipe for it, your partner has it!\n\n"
    + "Your partner needs to make " + partner + ". You have their recipe:\n"
  }

  /** The text the generator writes for a piece of prose. */
  function Render(p: Prose): string
  {
    match p
    case Conversation(first, second) =>
      "We need to make " + first + " and " + second + " together. You are supposed to make " + second
      + " and I am supposed to make " + first + ", "
      + "but I only have YOUR recipe and you only have access to MY recipe! Let's exchange information and get cooking!"
    case SwappedGoal(own, partner, steps) =>
      GoalOpening(own, partner) + HandedRecipe(partner, steps) + "\n\n" + GoalClosing
  }

  /** A goal's text hands over the partner's recipe. */
  lemma SwappedGoalHands(own: string, partner: string, partnerSteps: seq<string>)
    ensures Contains(Render(SwappedGoal(own, partner, partnerSteps)), HandedRecipe(partner, partnerSteps))
  {
    var opening := GoalOpening(own, partner);
    var handed := HandedRecipe(partner, partnerSteps);
    var g := Render(SwappedGoal(own, partner, partnerSteps));
    assert g[|opening|..|opening| + |handed|] == handed;
    assert OccursAt(g, handed, |opening|);
  }

  /** The two goals: each agent holds the recipe of the other's dish. */
  function SwapGoals(a: string, b: string, aSteps: seq<string>, bSteps: seq<string>): Dict<Prose>
  {
    [("0", SwappedGoal(a, b, bSteps)), ("1", SwappedGoal(b, a, aSteps))]
  }

  /** The task carries the recipe of every selected dish, as the catalog
      lists it, and no other recipe. */
  lemma BuildTaskRecipes(catalog: Catalog, selected: seq<string>)
    requires |selected| >= 2 && CookingTasks.AllKnown(catalog, selected)
    ensures var t := BuildTask(catalog, selected);
      && Keys(t.recipes) == (set i | 0 <= i < |selected| :: selected[i])
      && forall d | d in Keys(t.recipes) :: d in catalog && Get(t.recipes, d) == Some(catalog[d].recipe)
  {
    assert (set i | 0 <= i < |selected| && selected[i] in catalog :: selected[i]) == set i | 0 <= i < |selected| :: selected[i];
  }

  /** The task `generate_hells_kitchen_task` builds for dishes it can look
      up: agent 0 makes the first dish and holds the second one's recipe,
      agent 1 the other way round. */
  function BuildTask(catalog: Catalog, selected: seq<string>): (t: HkTask)
    requires |selected| >= 2 && CookingTasks.AllKnown(catalog, selected)
    ensures t.target == [selected[0], selected[1]]
    ensures t.agentCount == 2 && t.blocked == [] && t.timeout == 300
    ensures t.kind == "cooking" && t.taskType == "cooking"
    ensures t.metrics == None && t.difficulty == None
  {
    var a, b := selected[0], selected[1];
    var recipes := CookingTasks.KnownRecipes(catalog, selected);
    HkTask(Conversation(a, b), 2, [a, b], "cooking", 300, recipes, [], SwapGoals(a, b, catalog[a].recipe, catalog[b].recipe), "cooking", None, None)
  }

  /** `generate_hells_kitchen_task(selected_items)`: a one-entry dictionary
      holding the task under its own ID. Fewer than two dishes raise
      `IndexError`; a dish missing from the catalog raises `KeyError` when
      its recipe is looked up. */
  function GenerateTask(catalog: Catalog, selected: seq<string>): (r: Outcome<Dict<HkTask>>)
    ensures r.Raises? ==> r.error == IndexError || r.error == KeyError
    ensures r == Raises(IndexError) <==> |selected| < 2
    ensures r == Raises(KeyError) <==> |selected| >= 2 && !CookingTasks.AllKnown(catalog, selected)
    ensures r.Returns? ==>
      && |selected| >= 2 && CookingTasks.AllKnown(catalog, selected)
      && |r.value| == 1 && r.value[0].1 == BuildTask(catalog, selected)
      && r.value[0].0 == HellsKitchenId(r.value[0].1.target)
  {
    if |selected| < 2 then Raises(IndexError)
    else if !CookingTasks.AllKnown(catalog, selected) then Raises(KeyError)
    else
      var t := BuildTask(catalog, selected);
      Returns([(HellsKitchenId(t.target), t)])
  }

  /** Reading a two-entry goal dictionary. */
  lemma GetTwoGoals(g: Dict<Prose>)
    requires |g| == 2 && g[0].0 == "0" && g[1].0 == "1"
    ensures KeyList(g) == ["0", "1"]
    ensures Get(g, "0") == Some(g[0].1) && Get(g, "1") == Some(g[1].1)
  {
    assert g[1..][0] == g[1];
  }

  /** Recipe swap: agent 0's goal hands over the recipe of agent 1's dish,
      and agent 1's goal the recipe of agent 0's dish. */
  lemma RecipeSwap(catalog: Catalog, selected: seq<string>)
    requires |selected| >= 2 && CookingTasks.AllKnown(catalog, selected)
    ensures var t := BuildTask(catalog, selected);
      && KeyList(t.goals) == ["0", "1"]
      && Get(t.goals, "0") == Some(SwappedGoal(selected[0], selected[1], catalog[selected[1]].recipe))
      && Get(t.goals, "1") == Some(SwappedGoal(selected[1], selected[0], catalog[selected[0]].recipe))
      && Contains(Render(Get(t.goals, "0").value), HandedRecipe(selected[1], catalog[selected[1]].recipe))
      && Contains(Render(Get(t.goals, "1").value), HandedRecipe(selected[0], catalog[selected[0]].recipe))
  {
    GetTwoGoals(BuildTask(catalog, selected).goals);
    SwappedGoalHands(selected[0], selected[1], catalog[selected[1]].recipe);
    SwappedGoalHands(selected[1], selected[0], catalog[selected[0]].recipe);
  }

  /** Exchanging the two dishes exchanges the two agents' goals. */
  lemma SwapIsSymmetric(catalog: Catalog, a: string, b: string)
    requires a in catalog && b in catalog
    ensures CookingTasks.AllKnown(catalog, [a, b]) && CookingTasks.AllKnown(catalog, [b, a])
    ensures var t := BuildTask(catalog, [a, b]);
      var u := BuildTask(catalog, [b, a]);
      Get(t.goals, "0") == Get(u.goals, "1") && Get(t.goals, "1") == Get(u.goals, "0")
  {
    assert CookingTasks.AllKnown(catalog, [a, b]) && CookingTasks.AllKnown(catalog, [b, a]);
    var ra, rb := catalog[a].recipe, catalog[b].recipe;
    assert BuildTask(catalog, [a, b]).goals == SwapGoals(a, b, ra, rb);
    assert BuildTask(catalog, [b, a]).goals == SwapGoals(b, a, rb, ra);
    GetTwoGoals(SwapGoals(a, b, ra, rb));
    GetTwoGoals(SwapGoals(b, a, rb, ra));
  }

  // ---------------------------------------------------------------------
  // Difficulty
  // ---------------------------------------------------------------------

  /** `sum(len(steps) for steps in recipes.values())` */
  function TotalSteps(recipes: Dict<seq<string>>): nat
  {
    if |recipes| == 0 then 0 else |recipes[0].1| + TotalSteps(recipes[1..])
  }

  /** `max(len(steps) for steps in recipes.values()) if recipes else 0` */
  function MaxSteps(recipes: Dict<seq<string>>): (m: nat)
    ensures |recipes| == 0 ==> m == 0
    ensures forall i | 0 <= i < |recipes| :: |recipes[i].1| <= m
    ensures |recipes| > 0 ==> exists i | 0 <= i < |recipes| :: m == |recipes[i].1|
  {
    if |recipes| == 0 then 0
    else
      var rest := MaxSteps(recipes[1..]);
      assert forall i | 1 <= i < |recipes| :: recipes[i] == recipes[1..][i - 1];
      if |recipes[0].1| >= rest then |recipes[0].1|
      else
        assert |recipes| > 1;
        var i :| 0 <= i < |recipes[1..]| && rest == |recipes[1..][i].1|;
        assert rest == |recipes[i + 1].1|;
        rest
  }

  /** No recipe is longer than all of them together. */
  lemma {:induction false} MaxAtMostTotal(recipes: Dict<seq<string>>)
    ensures MaxSteps(recipes) <= TotalSteps(recipes)
  {
    if |recipes| > 0 {
      MaxAtMostTotal(recipes[1..]);
    }
  }

  /** The step tier: 1 up to four steps in all, 2 up to eight, else 3. */
  function StepTier(totalSteps: int): (tier: int)
    ensures 1 <= tier <= 3
    ensures tier == 1 <==> totalSteps <= 4
    ensures tier == 3 <==> totalSteps > 8
  {
    if totalSteps <= 4 then 1 else if totalSteps <= 8 then 2 else 3
  }

  /** The category of a score: easy up to 3, medium up to 5, else hard. */
  function Category(score: int): (c: string)
    ensures c == "easy" <==> score <= 3
    ensures c == "medium" <==> 3 < score <= 5
    ensures c == "hard" <==> score > 5
  {
    if score <= 3 then "easy" else if score <= 5 then "medium" else "hard"
  }

  /** `calculate_hells_kitchen_task_difficulty_metrics(task)`: the step tier,
      plus one per target, plus one for the communication the swap forces. */
  function Metrics(recipes: Dict<seq<string>>, target: seq<string>): (d: Difficulty)
    ensures d.totalSteps == TotalSteps(recipes) && d.uniqueItems == |target|
    ensures 0 <= d.maxSteps <= d.totalSteps
    ensures |target| + 2 <= d.score <= |target| + 4
    ensures d.score == StepTier(d.totalSteps) + |target| + 1
    ensures d.category == Category(d.score)
  {
    MaxAtMostTotal(recipes);
    var total := TotalSteps(recipes);
    var score := StepTier(total) + |target| + 1;
    Difficulty(total, MaxSteps(recipes), |target|, score, Category(score))
  }

  /** A two-dish task always scores at least 4, so it is never rated easy. */
  lemma TwoDishesNeverEasy(recipes: Dict<seq<string>>, target: seq<string>)
    requires |target| == 2
    ensures Metrics(recipes, target).category != "easy"
    ensures Metrics(recipes, target).category == "hard" <==> TotalSteps(recipes) > 8
  {
  }

  /** The task with its metrics and category attached. */
  function Rate(t: HkTask): (r: HkTask)
    ensures r == t.(metrics := r.metrics, difficulty := r.difficulty)
    ensures r.metrics == Some(Metrics(t.recipes, t.target)) && r.difficulty == Some(r.metrics.value.category)
  {
    var m := Metrics(t.recipes, t.target);
    t.(metrics := Some(m), difficulty := Some(m.category))
  }

  // ---------------------------------------------------------------------
  // The train/test split
  // ---------------------------------------------------------------------

  /** The dishes held out for testing. */
  const TestDishes: set<string> := {"cooked_beef", "baked_potato", "cake", "golden_apple", "rabbit_stew", "bread"}

  /** `order` lists the members of `s` once each: the iteration order of a
      Python set, which the program does not fix. */
  predicate Enumerates(order: seq<string>, s: set<string>)
  {
    && (forall i | 0 <= i < |order| :: order[i] in s)
    && (forall x | x in s :: x in order)
    && (forall i, j | 0 <= i < j < |order| :: order[i] != order[j])
  }

  predicate Within(target: seq<string>, allowed: set<string>)
  {
    forall i | 0 <= i < |target| :: target[i] in allowed
  }

  /** What one generated task does to the tasks kept so far: rated and
      stored under its ID when its dishes all belong to `allowed`. */
  function Keep(acc: Dict<HkTask>, entry: (string, HkTask), allowed: set<string>): Dict<HkTask>
  {
    if Within(entry.1.target, allowed) then Store(acc, entry.0, Rate(entry.1)) else acc
  }

  /** `list(generate_hells_kitchen_task(c).items())[0]` */
  function Generated(catalog: Catalog, c: seq<string>): (r: Outcome<(string, HkTask)>)
    requires |c| == 2
    ensures r.Raises? <==> !CookingTasks.AllKnown(catalog, c)
    ensures r.Raises? ==> r.error == KeyError
    ensures r.Returns? ==> r.value.1.target == c && r.value.0 == HellsKitchenId(c)
  {
    assert c == [c[0], c[1]];
    match GenerateTask(catalog, c)
    case Raises(e) => Raises(e)
    case Returns(m) => Returns(m[0])
  }

  /** The generator's outcome for each combination, in order. */
  function Generations(catalog: Catalog, combos: seq<seq<string>>): (gs: seq<Outcome<(string, HkTask)>>)
    requires forall i | 0 <= i < |combos| :: |combos[i]| == 2
    ensures |gs| == |combos| && forall i | 0 <= i < |combos| :: gs[i] == Generated(catalog, combos[i])
  {
    seq(|combos|, i requires 0 <= i < |combos| => Generated(catalog, combos[i]))
  }

  /** One loop of `generate_maximum_hells_kitchen_tasks` over the generated
      tasks: each is passed through `Keep`, and the first exception ends
      the loop. Generating a task has no effect on the next one, so taking
      the outcomes in order is the same as generating them one by one. */
  function CollectTasks(gens: seq<Outcome<(string, HkTask)>>, allowed: set<string>, acc: Dict<HkTask>): Outcome<Dict<HkTask>>
    decreases |gens|
  {
    if |gens| == 0 then Returns(acc)
    else
      match gens[0]
      case Raises(e) => Raises(e)
      case Returns(entry) => CollectTasks(gens[1..], allowed, Keep(acc, entry, allowed))
  }

  /** `generate_maximum_hells_kitchen_tasks(...)`: every pair of training
      dishes and every pair of test dishes, visited in the iteration orders
      of the two sets. The requested task counts and the seed play no part. */
  function GenerateMaximum(catalog: Catalog, trainOrder: seq<string>, testOrder: seq<string>): Outcome<(Dict<HkTask>, Dict<HkTask>)>
    requires Enumerates(trainOrder, catalog.Keys - TestDishes)
    requires Enumerates(testOrder, TestDishes)
  {
    match CollectTasks(Generations(catalog, CookingTasks.Combinations(trainOrder, 2)), catalog.Keys - TestDishes, [])
    case Raises(e) => Raises(e)
    case Returns(train) =>
      match CollectTasks(Generations(catalog, CookingTasks.Combinations(testOrder, 2)), TestDishes, [])
      case Raises(e) => Raises(e)
      case Returns(test) => Returns((train, test))
  }

  /** Every dish of every kept task is allowed, and every kept task is rated. */
  predicate AllWithin(tasks: Dict<HkTask>, allowed: set<string>)
  {
    forall i | 0 <= i < |tasks| :: Within(tasks[i].1.target, allowed) && tasks[i].1.difficulty.Some? && tasks[i].1.metrics.Some?
  }

  lemma {:induction false} StoreAllWithin(tasks: Dict<HkTask>, allowed: set<string>, id: string, t: HkTask)
    requires AllWithin(tasks, allowed)
    requires Within(t.target, allowed) && t.difficulty.Some? && t.metrics.Some?
    ensures AllWithin(Store(tasks, id, t), allowed)
  {
    if |tasks| > 0 && tasks[0].0 != id {
      var r := Store(tasks, id, t);
      StoreAllWithin(tasks[1..], allowed, id, t);
      assert r == [tasks[0]] + Store(tasks[1..], id, t);
    }
  }

  lemma KeepWithin(acc: Dict<HkTask>, entry: (string, HkTask), allowed: set<string>)
    requires AllWithin(acc, allowed)
    ensures AllWithin(Keep(acc, entry, allowed), allowed)
  {
    if Within(entry.1.target, allowed) {
      StoreAllWithin(acc, allowed, entry.0, Rate(entry.1));
    }
  }

  /** A split loop only ever keeps rated tasks over allowed dishes. */
  lemma {:induction false} CollectTasksWithin(gens: seq<Outcome<(string, HkTask)>>, allowed: set<string>, acc: Dict<HkTask>)
    requires AllWithin(acc, allowed)
    ensures var r := CollectTasks(gens, allowed, acc); r.Returns? ==> AllWithin(r.value, allowed)
    decreases |gens|
  {
    if |gens| > 0 && gens[0].Returns? {
      KeepWithin(acc, gens[0].value, allowed);
      CollectTasksWithin(gens[1..], allowed, Keep(acc, gens[0].value, allowed));
    }
  }

  /** The IDs of the generated tasks. */
  function GeneratedIds(gens: seq<Outcome<(string, HkTask)>>): set<string>
  {
    set i | 0 <= i < |gens| && gens[i].Returns? :: gens[i].value.0
  }

  lemma GeneratedIdsCons(gens: seq<Outcome<(string, HkTask)>>)
    requires |gens| > 0 && gens[0].Returns?
    ensures GeneratedIds(gens) == {gens[0].value.0} + GeneratedIds(gens[1..])
  {
    var rest := gens[1..];
    forall x | x in GeneratedIds(gens) ensures x in {gens[0].value.0} + GeneratedIds(rest) {
      var i :| 0 <= i < |gens| && gens[i].Returns? && gens[i].value.0 == x;
      if i > 0 {
        assert rest[i - 1] == gens[i];
      }
    }
    forall x | x in GeneratedIds(rest) ensures x in GeneratedIds(gens) {
      var i :| 0 <= i < |rest| && rest[i].Returns? && rest[i].value.0 == x;
      assert gens[i + 1] == rest[i];
    }
  }

  /** Every generation succeeded with a task over allowed dishes. */
  predicate AllKept(gens: seq<Outcome<(string, HkTask)>>, allowed: set<string>)
  {
    forall i | 0 <= i < |gens| :: gens[i].Returns? && Within(gens[i].value.1.target, allowed)
  }

  /** When every task is generated and over allowed dishes, the subset
      filter never rejects one: the loop keeps a task under every ID. */
  lemma {:induction false} CollectTasksKeepsAll(gens: seq<Outcome<(string, HkTask)>>, allowed: set<string>, acc: Dict<HkTask>)
    requires AllKept(gens, allowed)
    ensures CollectTasks(gens, allowed, acc).Returns?
    ensures Keys(CollectTasks(gens, allowed, acc).value) == Keys(acc) + GeneratedIds(gens)
    decreases |gens|
  {
    if |gens| > 0 {
      var rest := gens[1..];
      assert AllKept(rest, allowed) by {
        forall i | 0 <= i < |rest| ensures rest[i].Returns? && Within(rest[i].value.1.target, allowed) {
          assert rest[i] == gens[i + 1];
        }
      }
      CollectTasksKeepsAll(rest, allowed, Keep(acc, gens[0].value, allowed));
      GeneratedIdsCons(gens);
    }
  }

  /** The loop raises exactly when some generation raises, and then with the
      error of the first one. */
  lemma {:induction false} CollectTasksRaises(gens: seq<Outcome<(string, HkTask)>>, allowed: set<string>, acc: Dict<HkTask>)
    ensures var r := CollectTasks(gens, allowed, acc);
      r.Raises? <==> exists i | 0 <= i < |gens| :: gens[i].Raises?
    ensures var r := CollectTasks(gens, allowed, acc);
      r.Raises? ==> exists i | 0 <= i < |gens| :: gens[i] == Raises(r.error) && forall j | 0 <= j < i :: gens[j].Returns?
    decreases |gens|
  {
    if |gens| > 0 && gens[0].Returns? {
      var rest := gens[1..];
      CollectTasksRaises(rest, allowed, Keep(acc, gens[0].value, allowed));
      var r := CollectTasks(gens, allowed, acc);
      assert r == CollectTasks(rest, allowed, Keep(acc, gens[0].value, allowed));
      if r.Raises? {
        var i :| 0 <= i < |rest| && rest[i] == Raises(r.error) && forall j | 0 <= j < i :: rest[j].Returns?;
        assert gens[i + 1] == Raises(r.error);
        assert forall j | 0 <= j < i + 1 :: gens[j].Returns? by {
          forall j | 0 <= j < i + 1 ensures gens[j].Returns? {
            if j > 0 { assert gens[j] == rest[j - 1]; }
          }
        }
      } else {
        forall i | 0 <= i < |gens| ensures gens[i].Returns? {
          if i > 0 { assert gens[i] == rest[i - 1]; }
        }
      }
    }
  }

  // ---------------------------------------------------------------------
  // Split analysis
  // ---------------------------------------------------------------------

  /** The `min` and `max` of one metric over one side of the split. */
  datatype Range = Range(lo: int, hi: int)

  /** One side's `difficulty_metrics` statistics, per metric; a metric no
      task of the side carries has no entry. */
  datatype MetricStats = MetricStats(
    steps: Option<Range>,     // "total_recipe_steps"
    targets: Option<Range>,   // "unique_target_items"
    scores: Option<Range>)    // "overall_difficulty_score"

  /** The integer and set parts of `analyze_task_split`'s result; the float
      `mean` and the `median` of each metric are not represented. */
  datatype SplitReport = SplitReport(
    trainCount: int,           // "train_count"
    testCount: int,            // "test_count"
    trainCategories: Counts,   // "train_difficulty_categories"
    testCategories: Counts,    // "test_difficulty_categories"
    trainMetrics: MetricStats, // "train_difficulty_metrics"
    testMetrics: MetricStats,  // "test_difficulty_metrics"
    trainItems: set<string>,   // "train_items"
    testItems: set<string>,    // "test_items"
    overlap: set<string>,      // "item_overlap"
    valid: bool)               // "is_valid_items_split"

  /** `min(values)` and `max(values)`, or nothing for an empty list, which
      the statistics loop skips. */
  function Span(xs: seq<int>): (r: Option<Range>)
    ensures r.None? <==> |xs| == 0
    ensures r.Some? ==> forall i | 0 <= i < |xs| :: r.value.lo <= xs[i] <= r.value.hi
    ensures r.Some? ==> (exists i | 0 <= i < |xs| :: xs[i] == r.value.lo)
    ensures r.Some? ==> (exists i | 0 <= i < |xs| :: xs[i] == r.value.hi)
  {
    if |xs| == 0 then None
    else
      var last := xs[|xs| - 1];
      var init := xs[..|xs| - 1];
      assert forall i | 0 <= i < |init| :: init[i] == xs[i];
      match Span(init)
      case None => Some(Range(last, last))
      case Some(p) =>
        Some(Range(if last < p.lo then last else p.lo, if last > p.hi then last else p.hi))
  }

  predicate Rated(tasks: Dict<HkTask>)
  {
    forall i | 0 <= i < |tasks| :: tasks[i].1.difficulty.Some? && tasks[i].1.metrics.Some?
  }

  function Categories(tasks: Dict<HkTask>): (cs: seq<string>)
    requires Rated(tasks)
    ensures |cs| == |tasks| && forall i | 0 <= i < |tasks| :: cs[i] == tasks[i].1.difficulty.value
  {
    seq(|tasks|, i requires 0 <= i < |tasks| => tasks[i].1.difficulty.value)
  }

  /** One metric of every rated task, in task order. */
  function MetricValues(tasks: Dict<HkTask>, metric: Difficulty -> int): (vs: seq<int>)
    requires Rated(tasks)
    ensures |vs| == |tasks| && forall i | 0 <= i < |tasks| :: vs[i] == metric(tasks[i].1.metrics.value)
  {
    seq(|tasks|, i requires 0 <= i < |tasks| => metric(tasks[i].1.metrics.value))
  }

  /** The statistics loop of one side. Every rated task carries all three
      metrics, so the `if metric in ...` test always holds. */
  function Stats(tasks: Dict<HkTask>): MetricStats
    requires Rated(tasks)
  {
    MetricStats(
      Span(MetricValues(tasks, (d: Difficulty) => d.totalSteps)),
      Span(MetricValues(tasks, (d: Difficulty) => d.uniqueItems)),
      Span(MetricValues(tasks, (d: Difficulty) => d.score)))
  }

  /** The dishes named by the targets of `tasks`. */
  function TargetItems(tasks: Dict<HkTask>): set<string>
  {
    set i, j | 0 <= i < |tasks| && 0 <= j < |tasks[i].1.target| :: tasks[i].1.target[j]
  }

  /** `analyze_task_split(train_tasks, test_tasks)`: a task without a
      `difficulty` raises `KeyError`; otherwise the counts, the category
      counters, the dish sets and their overlap. */
  function AnalyzeSplit(train: Dict<HkTask>, test: Dict<HkTask>): (r: Outcome<SplitReport>)
    ensures r.Raises? <==> !(Rated(train) && Rated(test))
    ensures r.Raises? ==> r.error == KeyError
    ensures r.Returns? ==>
      && r.value.trainCount == |train| && r.value.testCount == |test|
      && r.value.trainMetrics == Stats(train) && r.value.testMetrics == Stats(test)
      && r.value.trainItems == TargetItems(train) && r.value.testItems == TargetItems(test)
      && r.value.overlap == r.value.trainItems * r.value.testItems
      && (r.value.valid <==> r.value.overlap == {})
  {
    if !(Rated(train) && Rated(test)) then Raises(KeyError)
    else
      var trainItems, testItems := TargetItems(train), TargetItems(test);
      var overlap := trainItems * testItems;
      Returns(SplitReport(|train|, |test|, Tally(Categories(train)), Tally(Categories(test)),
        Stats(train), Stats(test), trainItems, testItems, overlap, |overlap| == 0))
  }

  /** The category counters count each rated task once, under its category. */
  lemma AnalyzeSplitCategories(train: Dict<HkTask>, test: Dict<HkTask>, c: string)
    requires Rated(train) && Rated(test)
    ensures var r := AnalyzeSplit(train, test).value;
      && Amount(r.trainCategories, c) == multiset(Categories(train))[c]
      && Amount(r.testCategories, c) == multiset(Categories(test))[c]
      && Total(r.trainCategories) == r.trainCount && Total(r.testCategories) == r.testCount
  {
    TallyAmounts(Categories(train), c);
    TallyAmounts(Categories(test), c);
    TallyTotal(Categories(train));
    TallyTotal(Categories(test));
  }

  /** A side's statistics exist exactly when the side has tasks, and then
      each metric's range is attained by some task and bounds every task. */
  lemma AnalyzeSplitMetrics(train: Dict<HkTask>, test: Dict<HkTask>)
    requires Rated(train) && Rated(test)
    ensures var m := AnalyzeSplit(train, test).value.trainMetrics;
      && (m.steps.Some? <==> |train| > 0) && (m.targets.Some? <==> |train| > 0) && (m.scores.Some? <==> |train| > 0)
      && (|train| > 0 ==> forall i | 0 <= i < |train| ::
            var d := train[i].1.metrics.value;
            && m.steps.value.lo <= d.totalSteps <= m.steps.value.hi
            && m.targets.value.lo <= d.uniqueItems <= m.targets.value.hi
            && m.scores.value.lo <= d.score <= m.scores.value.hi)
      && (|train| > 0 ==> exists i | 0 <= i < |train| :: train[i].1.metrics.value.totalSteps == m.steps.value.lo)
      && (|train| > 0 ==> exists i | 0 <= i < |train| :: train[i].1.metrics.value.totalSteps == m.steps.value.hi)
    ensures var m := AnalyzeSplit(train, test).value.testMetrics;
      && (m.steps.Some? <==> |test| > 0) && (m.targets.Some? <==> |test| > 0) && (m.scores.Some? <==> |test| > 0)
      && (|test| > 0 ==> forall i | 0 <= i < |test| ::
            var d := test[i].1.metrics.value;
            && m.steps.value.lo <= d.totalSteps <= m.steps.value.hi
            && m.targets.value.lo <= d.uniqueItems <= m.targets.value.hi
            && m.scores.value.lo <= d.score <= m.scores.value.hi)
  {
    StatsBounds(train);
    StatsBounds(test);
  }

  lemma StatsBounds(tasks: Dict<HkTask>)
    requires Rated(tasks)
    ensures var m := Stats(tasks);
      && (m.steps.Some? <==> |tasks| > 0) && (m.targets.Some? <==> |tasks| > 0) && (m.scores.Some? <==> |tasks| > 0)
      && (|tasks| > 0 ==> forall i | 0 <= i < |tasks| ::
            var d := tasks[i].1.metrics.value;
            && m.steps.value.lo <= d.totalSteps <= m.steps.value.hi
            && m.targets.value.lo <= d.uniqueItems <= m.targets.value.hi
            && m.scores.value.lo <= d.score <= m.scores.value.hi)
      && (|tasks| > 0 ==> exists i | 0 <= i < |tasks| :: tasks[i].1.metrics.value.totalSteps == m.steps.value.lo)
      && (|tasks| > 0 ==> exists i | 0 <= i < |tasks| :: tasks[i].1.metrics.value.totalSteps == m.steps.value.hi)
  {
    var steps := MetricValues(tasks, (d: Difficulty) => d.totalSteps);
    if |tasks| > 0 {
      var m := Stats(tasks);
      var i :| 0 <= i < |steps| && steps[i] == m.steps.value.lo;
      var j :| 0 <= j < |steps| && steps[j] == m.steps.value.hi;
    }
  }

  lemma AllWithinItems(tasks: Dict<HkTask>, allowed: set<string>)
    requires AllWithin(tasks, allowed)
    ensures Rated(tasks) && TargetItems(tasks) <= allowed
  {
  }

  /** The generated split is always valid: the training dishes are the
      catalog minus the test dishes, so no dish is on both sides. */
  lemma GeneratedSplitIsValid(catalog: Catalog, trainOrder: seq<string>, testOrder: seq<string>)
    requires Enumerates(trainOrder, catalog.Keys - TestDishes)
    requires Enumerates(testOrder, TestDishes)
    requires GenerateMaximum(catalog, trainOrder, testOrder).Returns?
    ensures var split := GenerateMaximum(catalog, trainOrder, testOrder).value;
      var r := AnalyzeSplit(split.0, split.1);
      r.Returns? && r.value.overlap == {} && r.value.valid
  {
    var trainGens := Generations(catalog, CookingTasks.Combinations(trainOrder, 2));
    var testGens := Generations(catalog, CookingTasks.Combinations(testOrder, 2));
    CollectTasksWithin(trainGens, catalog.Keys - TestDishes, []);
    CollectTasksWithin(testGens, TestDishes, []);
    var split := GenerateMaximum(catalog, trainOrder, testOrder).value;
    AllWithinItems(split.0, catalog.Keys - TestDishes);
    AllWithinItems(split.1, TestDishes);
  }

  /** A pair of allowed, catalogued dishes yields a task over allowed dishes. */
  lemma GeneratedKept(catalog: Catalog, c: seq<string>, allowed: set<string>)
    requires allowed <= catalog.Keys
    requires |c| == 2 && c[0] in allowed && c[1] in allowed
    ensures Generated(catalog, c).Returns?
    ensures Within(Generated(catalog, c).value.1.target, allowed)
  {
    assert CookingTasks.AllKnown(catalog, c);
  }

  /** Every pair of allowed, catalogued dishes yields a task over allowed
      dishes. */
  lemma GenerationsKept(catalog: Catalog, order: seq<string>, allowed: set<string>)
    requires allowed <= catalog.Keys
    requires forall i | 0 <= i < |order| :: order[i] in allowed
    ensures AllKept(Generations(catalog, CookingTasks.Combinations(order, 2)), allowed)
  {
    var cs := CookingTasks.Combinations(order, 2);
    var gs := Generations(catalog, cs);
    forall i | 0 <= i < |cs| ensures gs[i].Returns? && Within(gs[i].value.1.target, allowed) {
      assert cs[i][0] in order && cs[i][1] in order;
      GeneratedKept(catalog, cs[i], allowed);
    }
  }

  /** When every pair yields a task, the tasks carry the pairs' IDs. */
  lemma GenerationsIds(catalog: Catalog, combos: seq<seq<string>>)
    requires forall i | 0 <= i < |combos| :: |combos[i]| == 2
    requires forall i | 0 <= i < |combos| :: Generations(catalog, combos)[i].Returns?
    ensures GeneratedIds(Generations(catalog, combos)) == PairIds(combos)
  {
    var gs := Generations(catalog, combos);
    forall x | x in PairIds(combos) ensures x in GeneratedIds(gs) {
      var i :| 0 <= i < |combos| && HellsKitchenId(combos[i]) == x;
      assert gs[i].value.0 == x;
    }
    forall x | x in GeneratedIds(gs) ensures x in PairIds(combos) {
      var i :| 0 <= i < |gs| && gs[i].Returns? && gs[i].value.0 == x;
      assert combos[i] in combos;
    }
  }

  /** The IDs of the Hell's Kitchen tasks for `combos`. */
  function PairIds(combos: seq<seq<string>>): set<string>
  {
    set i | 0 <= i < |combos| :: HellsKitchenId(combos[i])
  }

  /** A test dish missing from the catalog appears in some test pair. */
  lemma MissingTestDish(catalog: Catalog, testOrder: seq<string>, x: string)
    requires Enumerates(testOrder, TestDishes)
    requires x in TestDishes && x !in catalog
    ensures exists k | 0 <= k < |CookingTasks.Combinations(testOrder, 2)| ::
      !CookingTasks.AllKnown(catalog, CookingTasks.Combinations(testOrder, 2)[k])
  {
    var testCombos := CookingTasks.Combinations(testOrder, 2);
    var y := if x == "bread" then "cake" else "bread";
    assert y in TestDishes;
    var i :| 0 <= i < |testOrder| && testOrder[i] == x;
    var j :| 0 <= j < |testOrder| && testOrder[j] == y;
    var lo, hi := if i < j then i else j, if i < j then j else i;
    CookingTasks.PairInCombinations(testOrder, lo, hi);
    var k :| 0 <= k < |testCombos| && testCombos[k] == [testOrder[lo], testOrder[hi]];
    assert testCombos[k][0] == x || testCombos[k][1] == x;
  }

  /** The generator raises exactly when a test dish is missing from the
      catalog, and then with `KeyError`: the training dishes come from the
      catalog itself. */
  lemma GenerateMaximumRaises(catalog: Catalog, trainOrder: seq<string>, testOrder: seq<string>)
    requires Enumerates(trainOrder, catalog.Keys - TestDishes)
    requires Enumerates(testOrder, TestDishes)
    ensures var r := GenerateMaximum(catalog, trainOrder, testOrder);
      && (r.Raises? <==> !(TestDishes <= catalog.Keys))
      && (r.Raises? ==> r.error == KeyError)
  {
    var testCombos := CookingTasks.Combinations(testOrder, 2);
    var trainGens := Generations(catalog, CookingTasks.Combinations(trainOrder, 2));
    var testGens := Generations(catalog, testCombos);
    GenerationsKept(catalog, trainOrder, catalog.Keys - TestDishes);
    CollectTasksKeepsAll(trainGens, catalog.Keys - TestDishes, []);
    CollectTasksRaises(testGens, TestDishes, []);
    if TestDishes <= catalog.Keys {
      GenerationsKept(catalog, testOrder, TestDishes);
      CollectTasksKeepsAll(testGens, TestDishes, []);
    } else {
      var x :| x in TestDishes && x !in catalog;
      MissingTestDish(catalog, testOrder, x);
      var k :| 0 <= k < |testCombos| && !CookingTasks.AllKnown(catalog, testCombos[k]);
      assert testGens[k].Raises?;
    }
  }

  /** Otherwise it keeps a task for every training pair and every test pair. */
  lemma GenerateMaximumKeys(catalog: Catalog, trainOrder: seq<string>, testOrder: seq<string>)
    requires Enumerates(trainOrder, catalog.Keys - TestDishes)
    requires Enumerates(testOrder, TestDishes)
    requires TestDishes <= catalog.Keys
    ensures var r := GenerateMaximum(catalog, trainOrder, testOrder);
      && r.Returns?
      && Keys(r.value.0) == PairIds(CookingTasks.Combinations(trainOrder, 2))
      && Keys(r.value.1) == PairIds(CookingTasks.Combinations(testOrder, 2))
  {
    var trainGens := Generations(catalog, CookingTasks.Combinations(trainOrder, 2));
    var testGens := Generations(catalog, CookingTasks.Combinations(testOrder, 2));
    GenerationsKept(catalog, trainOrder, catalog.Keys - TestDishes);
    GenerationsKept(catalog, testOrder, TestDishes);
    GenerationsIds(catalog, CookingTasks.Combinations(trainOrder, 2));
    GenerationsIds(catalog, CookingTasks.Combinations(testOrder, 2));
    CollectTasksKeepsAll(trainGens, catalog.Keys - TestDishes, []);
    CollectTasksKeepsAll(testGens, TestDishes, []);
  }
}
