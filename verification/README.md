# Evaluation scripts of a multi-agent voxel-game benchmark, in Dafny

This project models the pure logic of the Python scripts that generate,
select and score the benchmark's tasks. Agents of a block-building game cook
dishes, craft items and build structures together. The scripts around them
write task files, run the agents and read back the log files the agents
leave. The model takes every file, directory listing and log as an
already-parsed value and keeps the logic that decides something.

- **Cooking task generation** (`CookingInventory`, `Counter`, `CookingTasks`, `HellsKitchen`).
  - The chest items a set of dishes needs, split across the agents.
  - The "collaboration required" filter and goal rewriting.
  - The recipe-blocking rewrite.
  - The tasks for all remaining pairs of dishes.
  - Task IDs.
  - The "Hell's Kitchen" recipe swap, its difficulty metrics and the train/test split.
- **Cooking analysis** (`IdParsing`, `CookingAnalyzer`).
  - Recovering the dishes and the blocked-agent key from a directory name, the inverse of the generator's ID format.
  - Success and try counters per dish and per key.
- **Result scoring** (`Logs`, `SuccessLogs`, `Tallies`, `EvaluationEngine`, `CraftingAnalyzer`, `ResultsAnalyzer`, `ConstructionScores`, `ConstructionGroups`).
  - Reading a score or a success flag from a list of log turns, per file and then per task folder.
  - The category counters and their rates.
  - Splitting task IDs across parallel servers, and port and agent-name arithmetic.
  - The configuration-file editor.
  - The construction analyzer's score records, completion rates and difficulty groups.
- **Construction task filtering** (`TaskNames`, `ConstructionTasks`, `EasyTasks`, `TrainingTasks`, `Table`, `Sorting`, `Choice`).
  - Reading `(m, r, w, c)` from a task name, and the difficulty score.
  - The easiest-30 selection and the distribution sampler.
  - The first-500 selection in sorted key order, and the final shuffle.

Shared modules model the Python built-ins the scripts lean on:
- `Py`: `Option`, exceptions and outcomes.
- `Text`: string searching, `split`, `join`, `str(int)`.
- `Dict`: insertion-ordered `dict` with string keys.
- `Table`: dicts keyed by integer tuples.
- `Sorting`: the stable `sorted` on string, tuple and integer keys.
- `Choice`: `random.sample` and `random.shuffle` as functions of the numbers drawn.

Floats are Dafny reals, and rates are exact quotients. Every operation that
can raise in Python returns an `Outcome` that says which exception it raises.

## Model

| member | source | states |
|---|---|---|
| CookingInventory.Bump | evaluation_tasks/cooking_tasks/make_collaboration_required_cooking_task.py:258 | `inventory[k] = inventory.get(k, 0) + q` adds `q` to `k` alone and keeps the other amounts and the distinct keys |
| CookingInventory.AddAll | evaluation_tasks/cooking_tasks/make_collaboration_required_cooking_task.py:257-258 | adding a dish's chest items gives every key its old amount plus the dish's amount, and the keys are the union |
| CookingInventory.AggregateChestItems | evaluation_tasks/cooking_tasks/make_collaboration_required_cooking_task.py:253-260 | the aggregated amount of each chest item is the sum of that item over the known requested dishes; unknown dishes add nothing, and only needed keys appear |
| CookingInventory.ArgMin | evaluation_tasks/cooking_tasks/make_collaboration_required_cooking_task.py:267 | `numpy.argmin`: an index holding the minimum, with every earlier index strictly larger |
| CookingInventory.PlaceItem | evaluation_tasks/cooking_tasks/make_collaboration_required_cooking_task.py:265-278 | one placement step keeps the number of agents and leaves everything unchanged for a quantity below one |
| CookingInventory.PlaceItemEffect | evaluation_tasks/cooking_tasks/make_collaboration_required_cooking_task.py:265-289 | only the placed item changes; a single unit goes to the first agent with the least total; a larger quantity gives agent `j` `q div n`, plus 1 when `j < q mod n` |
| CookingInventory.PlaceAll | evaluation_tasks/cooking_tasks/make_collaboration_required_cooking_task.py:265-278 | the placement loop keeps the number of agents |
| CookingInventory.PlaceAllEffect | evaluation_tasks/cooking_tasks/make_collaboration_required_cooking_task.py:264-278 | after the whole loop each item is placed as one step would place it, whatever the items before it |
| CookingInventory.SplitInventory | evaluation_tasks/cooking_tasks/make_collaboration_required_cooking_task.py:261-279 | no agents and something to place raises `ValueError` (argmin of an empty list); no agents and nothing to place gives no inventories; otherwise exactly `num_agents` inventories |
| CookingInventory.SumOverShares | evaluation_tasks/cooking_tasks/make_collaboration_required_cooking_task.py:270-278 | the div/rem shares of a quantity above one add up to the quantity |
| CookingInventory.SplitInventoryShares | evaluation_tasks/cooking_tasks/make_collaboration_required_cooking_task.py:261-279 | balance for quantities above one, conservation for every positive quantity, at most one unit per agent for a single unit, and nothing for keys not aggregated |
| CookingInventory.MakeInitialInventoryConserves | evaluation_tasks/cooking_tasks/make_collaboration_required_cooking_task.py:249-279 | end to end: the agents' shares of each needed chest item add up to what the known dishes need, and items no dish needs are given to nobody |
| Counter.Tally | evaluation_tasks/cooking_tasks/hells_kitchen_tasks.py:513-514 | `Counter(values)` has distinct keys |
| Counter.TallyKeys | evaluation_tasks/cooking_tasks/hells_kitchen_tasks.py:513-514 | the counter's keys are exactly the values that occur |
| Counter.TallyAmounts | evaluation_tasks/cooking_tasks/hells_kitchen_tasks.py:513-514 | each value is counted once per occurrence |
| Counter.TallyTotal | evaluation_tasks/cooking_tasks/hells_kitchen_tasks.py:513-514 | the counts add up to the number of values |
| CookingTasks.KnownRecipes | evaluation_tasks/cooking_tasks/make_collaboration_required_cooking_task.py:346-357 | the new recipes hold exactly the known dishes among the task's recipe keys, each with its catalog recipe |
| CookingTasks.RecipeBlocks | evaluation_tasks/cooking_tasks/make_collaboration_required_cooking_task.py:402-403 | one `Recipe for {item}:\n{recipe}` block per recipe, in recipe order |
| CookingTasks.RewriteGoal | evaluation_tasks/cooking_tasks/make_collaboration_required_cooking_task.py:399-404 | a rewritten goal starts with the first line of the old goal; a blocked agent's goal is only that line; any other agent's goal contains every recipe block |
| CookingTasks.RewriteGoals | evaluation_tasks/cooking_tasks/make_collaboration_required_cooking_task.py:394-405 | the rewritten goal map has the same keys in the same order, each goal rewritten |
| CookingTasks.ReconfigureTask | evaluation_tasks/cooking_tasks/make_collaboration_required_cooking_task.py:344-406 | one task: raises exactly when the split raises; the task is kept exactly when every agent gets something; a kept task has the new split, exactly the catalog recipes of its known dishes in recipe order, the agent count when one was given, every goal rewritten by `RewriteGoals` (or unchanged in Hell's Kitchen mode), and every other field unchanged |
| CookingTasks.ReconfigureOutputsCooking | evaluation_tasks/cooking_tasks/make_collaboration_required_cooking_task.py:343-406 | the output holds only collaborative cooking tasks, each taken from the input under its own ID |
| CookingTasks.ReconfigureKeepsExactly | evaluation_tasks/cooking_tasks/make_collaboration_required_cooking_task.py:343-406 | with a given agent count, an ID is in the output exactly when the input holds a cooking task under it whose split gives every agent a positive total |
| CookingTasks.ReconfigureSetsCount | evaluation_tasks/cooking_tasks/make_collaboration_required_cooking_task.py:359-366 | with a given agent count, every output task is split across that many agents and records that count |
| CookingTasks.ReconfigureUsesFirstCount | evaluation_tasks/cooking_tasks/make_collaboration_required_cooking_task.py:359-360 | without a count, the first cooking task's `agent_count + human_count` fixes the split of every task after it too |
| CookingTasks.BlockRecipe | evaluation_tasks/cooking_tasks/make_collaboration_required_cooking_task.py:418-422 | the blocked list becomes `["0"]`, goal "0" becomes the collaborate sentence over the recipe keys, and nothing else changes |
| CookingTasks.BlockRecipeInTasks | evaluation_tasks/cooking_tasks/make_collaboration_required_cooking_task.py:413-424 | every task is rewritten under the same ID, in the same order |
| CookingTasks.Combinations | evaluation_tasks/cooking_tasks/make_collaboration_required_cooking_task.py:292 | `itertools.combinations`: each combination has `k` elements, all from the list |
| CookingTasks.CombinationsComplete | evaluation_tasks/cooking_tasks/make_collaboration_required_cooking_task.py:292 | every selection of the list at strictly increasing positions is a combination of its length |
| CookingTasks.CombinationsAreSelections | evaluation_tasks/cooking_tasks/make_collaboration_required_cooking_task.py:292 | the `k`-combinations are exactly the selections of the list at `k` strictly increasing positions |
| CookingTasks.PairInCombinations | evaluation_tasks/cooking_tasks/make_collaboration_required_cooking_task.py:292 | any two positions `i < j` of the list form one of its 2-combinations |
| CookingTasks.RemainingExcludesCompleted | evaluation_tasks/cooking_tasks/make_collaboration_required_cooking_task.py:294 | the corrected exclusion keeps a combination exactly when it is a combination of the items and no rearrangement of it was already completed |
| CookingTasks.RemainingAsWrittenKeepsCompleted | evaluation_tasks/cooking_tasks/make_collaboration_required_cooking_task.py:293-294 | as written, the combination (golden_apple, baked_potato) survives although (baked_potato, golden_apple) was completed, and the corrected exclusion removes it |
| CookingTasks.RecipeGoal | evaluation_tasks/cooking_tasks/make_collaboration_required_cooking_task.py:317-319 | the recipe goal starts with the plain goal and contains every item's recipe paragraph |
| CookingTasks.PartialPlanId | evaluation_tasks/cooking_tasks/make_collaboration_required_cooking_task.py:328-332 | the ID starts with "multiagent_cooking" and ends with "_partial_plan" |
| CookingTasks.Targets | evaluation_tasks/cooking_tasks/make_collaboration_required_cooking_task.py:301-303 | the target holds exactly the combination's items, each with quantity 1 |
| CookingTasks.UniformGoals | evaluation_tasks/cooking_tasks/make_collaboration_required_cooking_task.py:325-326 | one goal per agent key `str(i)`, in agent order |
| CookingTasks.AgentGoals | evaluation_tasks/cooking_tasks/make_collaboration_required_cooking_task.py:323-327 | goal "0" is the recipe goal, every other agent key gets the plain goal, and the keys are the agent keys plus "0" |
| CookingTasks.MakePartialPlanTask | evaluation_tasks/cooking_tasks/make_collaboration_required_cooking_task.py:296-332 | one combination's task: `ValueError` exactly when there are no agents and something to split; `KeyError` exactly when the split succeeds and a dish is not in the catalog; otherwise the task under its partial-plan ID |
| CookingTasks.MakePartialPlanTaskContents | evaluation_tasks/cooking_tasks/make_collaboration_required_cooking_task.py:297-327 | a generated task is a cooking task with the given agent count and split, every item a target with a recipe, and only agent "0" told the recipes |
| CookingTasks.PlanIds | evaluation_tasks/cooking_tasks/make_collaboration_required_cooking_task.py:328-332 | the IDs are exactly those of the combinations visited |
| CookingTasks.MakeTasksFromKeys | evaluation_tasks/cooking_tasks/make_collaboration_required_cooking_task.py:295-332 | with agents and known dishes, the file holds one task ID per combination visited |
| CookingTasks.MakeAllPossibleTasksKeys | evaluation_tasks/cooking_tasks/make_collaboration_required_cooking_task.py:291-332 | whatever combinations of the items are visited, in whatever order, the run returns and its task IDs are exactly the IDs of the visited combinations |
| CookingTasks.MakeAllPossibleTasksAsWritten | evaluation_tasks/cooking_tasks/make_collaboration_required_cooking_task.py:291-332 | visiting the set the subtraction at line 294 leaves, in any order, the run returns and its task IDs are exactly the IDs of that set |
| HellsKitchen.SortedTarget | evaluation_tasks/cooking_tasks/hells_kitchen_tasks.py:294 | `sorted(target.items())` is a sorted rearrangement of the target |
| HellsKitchen.BlockedSuffix | evaluation_tasks/cooking_tasks/hells_kitchen_tasks.py:299-304 | the blocked part is empty exactly when no agent is blocked, and otherwise starts with "_blocked_access_" |
| HellsKitchen.TaskId | evaluation_tasks/cooking_tasks/hells_kitchen_tasks.py:276-307 | every ID starts with "multiagent_cooking_" |
| HellsKitchen.TaskIdBlockedSuffix | evaluation_tasks/cooking_tasks/hells_kitchen_tasks.py:292-307 | an ID is the unblocked ID followed by the blocked part, which ends with the sorted agent keys joined by "_" |
| HellsKitchen.TaskIdBlockedOrder | evaluation_tasks/cooking_tasks/hells_kitchen_tasks.py:301-304 | listing the blocked agents in another order gives the same ID |
| HellsKitchen.TaskIdTargetOrder | evaluation_tasks/cooking_tasks/hells_kitchen_tasks.py:294-297 | a target dict built in another insertion order gives the same ID |
| HellsKitchen.HellsKitchenId | evaluation_tasks/cooking_tasks/hells_kitchen_tasks.py:309-327 | the ID starts with "multiagent_cooking_" and ends with "_hells_kitchen" |
| HellsKitchen.SwappedGoalHands | evaluation_tasks/cooking_tasks/hells_kitchen_tasks.py:349-357 | a goal's text hands over the partner's recipe |
| HellsKitchen.BuildTask | evaluation_tasks/cooking_tasks/hells_kitchen_tasks.py:329-390 | target `[item0, item1]`, two agents, no blocked list, timeout 300, cooking type, no metrics yet |
| HellsKitchen.BuildTaskRecipes | evaluation_tasks/cooking_tasks/hells_kitchen_tasks.py:342-344 | the task carries every selected dish's catalog recipe and no other |
| HellsKitchen.GenerateTask | evaluation_tasks/cooking_tasks/hells_kitchen_tasks.py:329-390 | fewer than two dishes raise `IndexError`; an unknown dish raises `KeyError`; otherwise a one-entry dict holding the task under its own ID |
| HellsKitchen.RecipeSwap | evaluation_tasks/cooking_tasks/hells_kitchen_tasks.py:349-367 | goal "0" hands over the recipe of item1 and goal "1" the recipe of item0 |
| HellsKitchen.SwapIsSymmetric | evaluation_tasks/cooking_tasks/hells_kitchen_tasks.py:349-367 | exchanging the two dishes exchanges the two agents' goals |
| HellsKitchen.MaxSteps | evaluation_tasks/cooking_tasks/hells_kitchen_tasks.py:399 | 0 for no recipes, otherwise the length of some recipe and at least every recipe's length |
| HellsKitchen.MaxAtMostTotal | evaluation_tasks/cooking_tasks/hells_kitchen_tasks.py:398-399 | the longest recipe is no longer than all steps together |
| HellsKitchen.StepTier | evaluation_tasks/cooking_tasks/hells_kitchen_tasks.py:408-413 | tier 1 exactly up to 4 steps, 3 exactly above 8, 2 in between |
| HellsKitchen.Category | evaluation_tasks/cooking_tasks/hells_kitchen_tasks.py:426-431 | easy exactly up to 3, medium exactly from 4 to 5, hard exactly above 5 |
| HellsKitchen.Metrics | evaluation_tasks/cooking_tasks/hells_kitchen_tasks.py:392-442 | the metrics: total steps, the longest recipe within it, one per target, a score of tier + targets + 1 between targets + 2 and targets + 4, and its category |
| HellsKitchen.TwoDishesNeverEasy | evaluation_tasks/cooking_tasks/hells_kitchen_tasks.py:404-431 | a two-dish task is never easy, and is hard exactly when it has more than 8 steps |
| HellsKitchen.Rate | evaluation_tasks/cooking_tasks/hells_kitchen_tasks.py:484-485 | the task gains its metrics and their category and nothing else changes |
| HellsKitchen.Generated | evaluation_tasks/cooking_tasks/hells_kitchen_tasks.py:477-478 | generating a pair raises `KeyError` exactly when a dish is not in the catalog, and otherwise gives the pair as target under its Hell's Kitchen ID |
| HellsKitchen.Generations | evaluation_tasks/cooking_tasks/hells_kitchen_tasks.py:476-478 | the generator's outcome for each combination, in order |
| HellsKitchen.CollectTasksWithin | evaluation_tasks/cooking_tasks/hells_kitchen_tasks.py:476-500 | a split loop keeps only rated tasks whose dishes are allowed |
| HellsKitchen.CollectTasksKeepsAll | evaluation_tasks/cooking_tasks/hells_kitchen_tasks.py:480-486 | when every pair generates and is allowed, the loop keeps a task under every generated ID |
| HellsKitchen.CollectTasksRaises | evaluation_tasks/cooking_tasks/hells_kitchen_tasks.py:476-478 | the loop raises exactly when some generation raises, with the first one's error |
| HellsKitchen.AnalyzeSplit | evaluation_tasks/cooking_tasks/hells_kitchen_tasks.py:506-591 | a task without a difficulty or metrics raises `KeyError`; otherwise the counts, the per-metric statistics, the dish sets, their overlap as the intersection, and validity exactly when the overlap is empty |
| HellsKitchen.Span | evaluation_tasks/cooking_tasks/hells_kitchen_tasks.py:544-552 | `min` and `max` of a metric's values: absent exactly for no values, otherwise both attained and bounding every value |
| HellsKitchen.AnalyzeSplitMetrics | evaluation_tasks/cooking_tasks/hells_kitchen_tasks.py:529-563 | each side has the statistics of its three metrics exactly when it has tasks, and then every task's metrics lie within their `min` and `max` |
| HellsKitchen.AnalyzeSplitCategories | evaluation_tasks/cooking_tasks/hells_kitchen_tasks.py:513-514 | the category counters count each task once under its category and add up to the task counts |
| HellsKitchen.GeneratedSplitIsValid | evaluation_tasks/cooking_tasks/hells_kitchen_tasks.py:459-500 | the generated train/test split never shares a dish, so the overlap `analyze_task_split` computes is empty and the split is valid |
| HellsKitchen.GeneratedKept | evaluation_tasks/cooking_tasks/hells_kitchen_tasks.py:480-482 | a pair of allowed catalog dishes yields a task over allowed dishes |
| HellsKitchen.GenerationsKept | evaluation_tasks/cooking_tasks/hells_kitchen_tasks.py:464-486 | every pair of allowed catalog dishes yields a task over allowed dishes |
| HellsKitchen.GenerationsIds | evaluation_tasks/cooking_tasks/hells_kitchen_tasks.py:477-478 | when every pair generates, the tasks carry the pairs' IDs |
| HellsKitchen.GenerateMaximumRaises | evaluation_tasks/cooking_tasks/hells_kitchen_tasks.py:459-502 | the generator raises exactly when a test dish is not in the catalog, and then with `KeyError` |
| HellsKitchen.GenerateMaximumKeys | evaluation_tasks/cooking_tasks/hells_kitchen_tasks.py:459-502 | otherwise the two files hold one task per training pair and one per test pair |
| IdParsing.FirstCut | evaluation_tasks/cooking_task_analyzer.py:21 | the leftmost position from `from` on where `marker[0-9_]+$` matches, and no match before it |
| IdParsing.CutUnique | evaluation_tasks/cooking_task_analyzer.py:21 | `_blocked_access_[0-9_]+$` (and `blocked_access_[0-9_]+$`) can match in at most one place of a name |
| IdParsing.FirstCutIs | evaluation_tasks/cooking_task_analyzer.py:65 | where the pattern matches, that is the match `re.search` finds |
| IdParsing.NoCutBeforeLetter | evaluation_tasks/cooking_task_analyzer.py:65 | a name ending in a letter has no blocked part |
| IdParsing.StripPrefix | evaluation_tasks/cooking_task_analyzer.py:20 | a leading "multiagent_cooking_" is removed, and a name without it is unchanged |
| IdParsing.StripBlocked | evaluation_tasks/cooking_task_analyzer.py:21 | the result is a prefix of the name: the whole name without a match, and the part before the match otherwise |
| IdParsing.Items | evaluation_tasks/cooking_task_analyzer.py:25-30 | every dish read back has its trailing underscores removed |
| IdParsing.AgentsKey | evaluation_tasks/cooking_task_analyzer.py:71 | the key is the number followed by " agent(s)" |
| IdParsing.BlockedKey | evaluation_tasks/cooking_task_analyzer.py:65-74 | "0 agent(s)" when the name has no trailing `blocked_access_[0-9_]+`, and a key ending in " agent(s)" always |
| IdParsing.ItemsStep | evaluation_tasks/cooking_task_analyzer.py:25-30 | one `count_item` entry followed by more quantities yields its dish and resumes at the next count |
| IdParsing.ItemsOfQuantities | evaluation_tasks/cooking_task_analyzer.py:25-32 | the quantities part `1_cake_2_bread` of a generated ID reads back as its dish names, in order |
| IdParsing.StripPrefixOfTaskId | evaluation_tasks/cooking_task_analyzer.py:20 | removing the prefix of a generated ID leaves its quantities and its blocked part |
| IdParsing.StripBlockedOfQuantities | evaluation_tasks/cooking_task_analyzer.py:21 | removing the blocked part of a generated ID leaves its quantities |
| IdParsing.ExtractItemsOfTaskId | evaluation_tasks/cooking_task_analyzer.py:17-32 | `extract_cooking_items` inverts `generate_task_id`: for letter-and-underscore dish names that end in a letter and numeric agent keys, the sorted dish names come back |
| IdParsing.BlockedKeyOfSuffix | evaluation_tasks/cooking_task_analyzer.py:65-74 | a name ending in a letter followed by the blocked part of an ID gets the key "k agent(s)" for its k blocked agents |
| IdParsing.BlockedKeyOfTaskId | evaluation_tasks/cooking_task_analyzer.py:65-74 | the blocked key of a generated ID counts its blocked agents, "0 agent(s)" when there are none |
| CookingAnalyzer.ScanTurns | evaluation_tasks/cooking_task_analyzer.py:94-100 | a score message once seen stays seen, and a success implies a score message and no error |
| CookingAnalyzer.ScanFile | evaluation_tasks/cooking_task_analyzer.py:88-109 | one log file: a score stays seen, and a success implies a score message and no error; only a file that cannot be opened or parsed is skipped |
| CookingAnalyzer.ScanFiles | evaluation_tasks/cooking_task_analyzer.py:85-109 | the loop over a directory's logs keeps these facts, and with every exception swallowed it never raises |
| CookingAnalyzer.ScanTurnsClean | evaluation_tasks/cooking_task_analyzer.py:94-100 | on turns that are all objects, the scan finds a success exactly when some system turn reports "Task ended with score : 1", and a score exactly when some system turn reports a score |
| CookingAnalyzer.ScanFilesClean | evaluation_tasks/cooking_task_analyzer.py:85-109 | when no log raises, success and score are found exactly when some system turn of some file reports them, whichever file it is in |
| CookingAnalyzer.StoreSound | evaluation_tasks/cooking_task_analyzer.py:117-125 | storing a counter whose successes do not exceed its tries keeps every counter sound |
| CookingAnalyzer.CountOne | evaluation_tasks/cooking_task_analyzer.py:118-120 | counting one try adds one to the total of `k`, and one success on a success, and leaves every other counter |
| CookingAnalyzer.CountOneSound | evaluation_tasks/cooking_task_analyzer.py:117-125 | counting keeps every counter's successes within its tries and the keys distinct |
| CookingAnalyzer.CountAllSound | evaluation_tasks/cooking_task_analyzer.py:117-120 | counting every dish keeps every counter sound |
| CookingAnalyzer.CountAllRecord | evaluation_tasks/cooking_task_analyzer.py:117-120 | each dish is counted once per occurrence in the directory's name |
| CookingAnalyzer.StoreSum | evaluation_tasks/cooking_task_analyzer.py:164-165 | overwriting one counter changes the sum of counters by the difference |
| CookingAnalyzer.CountOneSum | evaluation_tasks/cooking_task_analyzer.py:123-125 | counting one try adds one try to the sum of all counters |
| CookingAnalyzer.Visit | evaluation_tasks/cooking_task_analyzer.py:57-125 | one directory raises exactly when its scan ends with an error |
| CookingAnalyzer.VisitAllItems | evaluation_tasks/cooking_task_analyzer.py:59-62 | every visited directory, ignored or not, adds its dishes to the dish set |
| CookingAnalyzer.VisitIgnored | evaluation_tasks/cooking_task_analyzer.py:111-114 | a directory is appended to the ignored list exactly when its logs hold no score message |
| CookingAnalyzer.AnalyzeWellKept | evaluation_tasks/cooking_task_analyzer.py:34-133 | the counter tables stay dictionaries of counters with successes within tries |
| CookingAnalyzer.CrashIndex | evaluation_tasks/cooking_task_analyzer.py:88-109 | the first directory whose logs break the turn loop with an exception the loop does not catch |
| CookingAnalyzer.AnalyzeCrashIndex | evaluation_tasks/cooking_task_analyzer.py:57-125 | the analysis raises exactly at the first crashing directory, with its error |
| CookingAnalyzer.AnalyzeRaises | evaluation_tasks/cooking_task_analyzer.py:88-109 | the analysis raises exactly when some directory holds a log that breaks the turn loop, undecodable and non-object logs included |
| CookingAnalyzer.FirstLogCrashes | evaluation_tasks/cooking_task_analyzer.py:88-109 | a first log with undecodable bytes crashes its directory with `ValueError`, and a top-level number, boolean or null, or a list or string holding "turns", crashes it with `TypeError`, since the handler catches only `JSONDecodeError` and `IOError`; a log that cannot be opened or parsed is skipped; a lone undecodable log makes the analysis raise |
| CookingAnalyzer.AnalyzeBlocked | evaluation_tasks/cooking_task_analyzer.py:122-125 | each blocked key's counter counts the counted directories with that key and their successes |
| CookingAnalyzer.AnalyzeItems | evaluation_tasks/cooking_task_analyzer.py:116-120 | each dish's counter counts its occurrences in the names of counted directories, and those in successful ones |
| CookingAnalyzer.AnalyzeTotals | evaluation_tasks/cooking_task_analyzer.py:111-125 | the blocked counters add up to the counted directories, and counted plus ignored is every directory listed |
| CookingAnalyzer.AnalyzeIgnored | evaluation_tasks/cooking_task_analyzer.py:111-114 | the ignored list names exactly the directories without a score message |
| CookingAnalyzer.AnalyzeAllItems | evaluation_tasks/cooking_task_analyzer.py:59-62 | the dish set gathers the dishes of every directory listed, ignored ones included |
| CookingAnalyzer.WithoutSum | evaluation_tasks/cooking_task_analyzer.py:154-165 | taking one key's counter out of the table takes it out of the sum |
| CookingAnalyzer.OverallRowSame | evaluation_tasks/cooking_task_analyzer.py:156-165 | the overall row reads only the counters of the listed keys |
| CookingAnalyzer.OverallRowIsSum | evaluation_tasks/cooking_task_analyzer.py:154-183 | in whatever order the table lists its keys, if it lists each of a model's keys once, the overall row is the sum of that model's counters |
| CookingAnalyzer.OverallRowCounts | evaluation_tasks/cooking_task_analyzer.py:154-183 | the overall row of the blocked-key table counts every directory the analysis counted, and its successes |
| CookingAnalyzer.LenientVerdict | evaluation_tasks/cooking_task_analyzer.py:340-357 | the scan of `generate_item_blocked_data` never raises: it swallows every exception |
| CookingAnalyzer.VerdictsAgree | evaluation_tasks/cooking_task_analyzer.py:340-357 | when every log reads cleanly, the lenient scan agrees with the scan of `analyze_experiments` |
| CookingAnalyzer.CountNestedFirst | evaluation_tasks/cooking_task_analyzer.py:366-368 | counting one dish adds one try to its counter under the key only |
| CookingAnalyzer.CountNestedRecord | evaluation_tasks/cooking_task_analyzer.py:365-368 | each dish's counter under the key gains one try per occurrence of the dish, and every other counter stays |
| CookingAnalyzer.ItemBlockedCounts | evaluation_tasks/cooking_task_analyzer.py:310-370 | each (dish, key) counter holds the dish's occurrences in counted directories with that key, and those in successful ones |
| Logs.SystemText | evaluation_tasks/crafting_task_analyzer.py:91-92 | a turn's text is read only when its role is `"system"` and its content is a string, and then it is that content |
| Logs.MentionsPrefix | evaluation_tasks/crafting_task_analyzer.py:92-92 | a turn that holds a message holds each of its prefixes, so `"Task ended with score : 1"` implies the bare score marker |
| Logs.ListedTurns | evaluation_tasks/crafting_task_analyzer.py:89-90 | turns are scanned only when the log has a `turns` field that is a list |
| SuccessLogs.ScanForwardTrue | evaluation_tasks/crafting_task_analyzer.py:86-95 | the forward scan reports success exactly when it reaches a success turn before any turn that is not an object |
| SuccessLogs.ScanForwardFalse | evaluation_tasks/crafting_task_analyzer.py:86-104 | the forward scan reports failure exactly when every turn is an object and none is a success turn; otherwise the exception yields no result |
| SuccessLogs.ScanBackwardTrue | evaluation_tasks/results_analyzer.py:84-92 | the backward scan reports success exactly when it reaches a success turn after the last turn that is not an object |
| SuccessLogs.ScanBackwardFalse | evaluation_tasks/results_analyzer.py:84-101 | the backward scan reports failure in exactly the same logs as the forward scan |
| SuccessLogs.ScansAgree | evaluation_tasks/results_analyzer.py:87-92 | on logs whose turns are all objects, scanning from the end gives the forward result: success exactly when some turn succeeds |
| SuccessLogs.ScansDiffer | evaluation_tasks/results_analyzer.py:87-101 | a success turn after a turn that is not an object is found backwards but makes the forward scan raise |
| SuccessLogs.BaseExclusive | evaluation_tasks/results_analyzer.py:119-123 | no folder path is both a base folder and a base folder without a plan |
| SuccessLogs.AnyWinMeans | evaluation_tasks/crafting_task_analyzer.py:106-119 | a folder succeeds exactly when one of its logs reports success |
| Tallies.RateBounds | evaluation_tasks/crafting_task_analyzer.py:218-221 | a rate is 0 for an empty counter, lies in [0, 1] when successes do not exceed the total, and times the total gives back the successes |
| Tallies.Aggregate | evaluation_tasks/crafting_task_analyzer.py:127-216 | the report has one counter per category |
| Tallies.ScoredAtMost | evaluation_tasks/crafting_task_analyzer.py:174-178 | no more folders are read than are listed |
| Tallies.AggregateCounts | evaluation_tasks/crafting_task_analyzer.py:171-216 | the total counts every folder, even one whose result raised; the successes count successful folders; each category counts its read folders and their successes |
| Tallies.AggregateBounds | evaluation_tasks/crafting_task_analyzer.py:171-216 | successes are at most the read folders, which are at most the total, overall and per category |
| Tallies.DisjointWithin | evaluation_tasks/crafting_task_analyzer.py:200-213 | two categories that share no folder and lie inside a third count together at most as much as the third |
| EvaluationEngine.TenReadsAsOne | evaluation_tasks/task_evaluation_engine.py:58-60 | a score message reading 10 counts as score 1, because the test for `score : 1` matches first |
| EvaluationEngine.HalfReadsAsZero | evaluation_tasks/task_evaluation_engine.py:58-62 | a score message reading 0.5 counts as score 0, and the number is never parsed |
| EvaluationEngine.OtherScoresParsed | evaluation_tasks/task_evaluation_engine.py:58-65 | any other score is the parsed text after the last colon |
| EvaluationEngine.ScanScoreAt | evaluation_tasks/task_evaluation_engine.py:55-65 | the scan returns the score of the first system turn that holds the score marker |
| EvaluationEngine.ScanScoreNone | evaluation_tasks/task_evaluation_engine.py:55-68 | without a score turn the scan has no score |
| EvaluationEngine.AnalyzeJsonFileReads | evaluation_tasks/task_evaluation_engine.py:42-77 | a log's score is read from its first score turn, and a log without one has no score |
| EvaluationEngine.BestScoreIsMax | evaluation_tasks/task_evaluation_engine.py:87-95 | the running maximum is the largest of its start value and the scores found |
| EvaluationEngine.ExtractResultIsMax | evaluation_tasks/task_evaluation_engine.py:79-95 | a folder has a result exactly when it has logs, and the result is the largest score, or 0 when no score is larger |
| EvaluationEngine.ExtractResultOrder | evaluation_tasks/task_evaluation_engine.py:84-95 | the result does not depend on the order in which the logs are listed |
| EvaluationEngine.ScoreMoves | evaluation_tasks/task_evaluation_engine.py:87-95 | a score found in one listing of the logs is found in any reordering, and is bounded by its result |
| EvaluationEngine.KindOf | evaluation_tasks/task_evaluation_engine.py:113-119 | a run is construction exactly when its directory name mentions construction but neither cooking nor techtree |
| EvaluationEngine.TallyCounts | evaluation_tasks/task_evaluation_engine.py:121-133 | the total counts the folders with logs, the successes sum their results, never negatively and at most the total when no score exceeds 1 |
| EvaluationEngine.AggregateResultsOutcome | evaluation_tasks/task_evaluation_engine.py:97-143 | raises exactly for an empty list, a first path without a parent, or a construction run with no folder holding logs; otherwise reports the tally, and the mean for construction |
| EvaluationEngine.SuccessRateBounds | evaluation_tasks/task_evaluation_engine.py:175-178 | the rate is a fraction when the successes are, and times the total gives back the successes |
| EvaluationEngine.StridedAt | evaluation_tasks/task_evaluation_engine.py:270-270 | the slice `s[start::step]` holds exactly the elements at `start + k * step` that exist, in order |
| EvaluationEngine.SplitTasks | evaluation_tasks/task_evaluation_engine.py:270-270 | there is one group per parallel run |
| EvaluationEngine.SplitTasksAt | evaluation_tasks/task_evaluation_engine.py:270-270 | the ID at position `p` is element `p / n` of group `p % n` |
| EvaluationEngine.SplitTasksPlaces | evaluation_tasks/task_evaluation_engine.py:269-270 | every task ID lands in some group |
| EvaluationEngine.SplitTasksHolds | evaluation_tasks/task_evaluation_engine.py:269-270 | each group holds only IDs of the list, in list order |
| EvaluationEngine.SplitTasksBalanced | evaluation_tasks/task_evaluation_engine.py:270-270 | group sizes differ by at most one, the lower groups being the larger |
| EvaluationEngine.ServerNaming | evaluation_tasks/task_evaluation_engine.py:382-387 | server `i` on port `55916 + i` gets mind-server port `8080 + i` and session `"i"`, whose operator list lies in its own data directory |
| EvaluationEngine.ServersDistinct | evaluation_tasks/task_evaluation_engine.py:282-387 | distinct servers get distinct ports, mind-server ports and session names |
| EvaluationEngine.AgentNamesUniform | evaluation_tasks/task_evaluation_engine.py:388-404 | agent `i` is the `i mod 10`-th human name with the session suffix, including the one- and two-agent cases |
| EvaluationEngine.AgentNamesDistinct | evaluation_tasks/task_evaluation_engine.py:396-402 | up to ten agents have distinct names; an eleventh repeats the first |
| EvaluationEngine.OpNames | evaluation_tasks/task_evaluation_engine.py:527-527 | the names are read entry by entry, and an entry without a name raises `KeyError` |
| EvaluationEngine.AllOpsMeans | evaluation_tasks/task_evaluation_engine.py:529-532 | the loop holds exactly when every agent is among the operator names |
| EvaluationEngine.CheckAgentOpsMeans | evaluation_tasks/task_evaluation_engine.py:523-532 | the check raises exactly when an operator entry lacks a name, and otherwise holds exactly when every agent is an operator |
| EvaluationEngine.EditFileAsWrittenLength | evaluation_tasks/task_evaluation_engine.py:604-609 | the editor as written writes one line per input line and setting |
| EvaluationEngine.EditFileAsWrittenAt | evaluation_tasks/task_evaluation_engine.py:604-609 | the `j`-th setting's version of line `i` is written at position `i * settings + j` |
| EvaluationEngine.EditFileAsWrittenShape | evaluation_tasks/task_evaluation_engine.py:604-609 | both of the above for all lines and settings |
| EvaluationEngine.EditFileAsWrittenDoublesLines | evaluation_tasks/task_evaluation_engine.py:593-609 | with the port and level-name settings, the port line is written with the new port and then again unchanged, and every other line twice |
| EvaluationEngine.MatchingSetting | evaluation_tasks/task_evaluation_engine.py:605-606 | no setting is found exactly when no key starts the line, and a found one's key starts it |
| EvaluationEngine.EditFileLines | evaluation_tasks/task_evaluation_engine.py:599-609 | the corrected editor keeps one output line per input line: unchanged when no key starts it, otherwise a setting line for a key that does |
| EvaluationEngine.EditFileOneSetting | evaluation_tasks/task_evaluation_engine.py:383-383 | with the single setting `launch_server_experiment` passes, the editor as written and the corrected one agree |
| EvaluationEngine.EditFileSetsPort | evaluation_tasks/task_evaluation_engine.py:593-609 | the corrected editor writes the new port once and keeps every other line once |
| CraftingAnalyzer.ExtractResultMeans | evaluation_tasks/crafting_task_analyzer.py:106-119 | no result exactly for a folder without logs; success exactly when some log reaches a success turn before any turn that is not an object |
| CraftingAnalyzer.Rows | evaluation_tasks/crafting_task_analyzer.py:171-177 | one row per folder |
| CraftingAnalyzer.AggregateResults | evaluation_tasks/crafting_task_analyzer.py:127-216 | one counter per category of the report |
| CraftingAnalyzer.AggregateResultsCounts | evaluation_tasks/crafting_task_analyzer.py:171-216 | every folder counts in the total, a folder without logs in no category; each category counts its folders with logs, and successes never exceed totals |
| CraftingAnalyzer.Slot | evaluation_tasks/crafting_task_analyzer.py:218-251 | every category has its counter in the report |
| CraftingAnalyzer.DepthExclusive | evaluation_tasks/crafting_task_analyzer.py:200-213 | the depth counters never share a folder, and depths 1 and 2 lie inside high depth |
| CraftingAnalyzer.DepthBuckets | evaluation_tasks/crafting_task_analyzer.py:200-213 | the depth 1 and depth 2 counters together count at most the high-depth counter |
| CraftingAnalyzer.AggregateRates | evaluation_tasks/crafting_task_analyzer.py:218-251 | every rate lies in [0, 1] and is 0 for an empty counter |
| ResultsAnalyzer.ExtractResultMeans | evaluation_tasks/results_analyzer.py:103-117 | raises `AssertionError` exactly when the folder does not hold two logs, so the empty-folder branch is dead; otherwise success exactly when a log reports success after its last non-object turn |
| ResultsAnalyzer.Slot | evaluation_tasks/results_analyzer.py:193-217 | every category the report has gets its counter |
| ResultsAnalyzer.CategoryRules | evaluation_tasks/results_analyzer.py:169-189 | a base folder is never a plan or missing folder; depth 1 always counts as high depth, depth 2 alone only outside the base folders |
| ResultsAnalyzer.Rows | evaluation_tasks/results_analyzer.py:160-166 | one row per folder |
| ResultsAnalyzer.AggregateResults | evaluation_tasks/results_analyzer.py:125-191 | one counter per category of the report |
| ResultsAnalyzer.AggregateResultsCounts | evaluation_tasks/results_analyzer.py:160-191 | every folder counts in the total, only folders with two logs in a category, and successes never exceed totals |
| ResultsAnalyzer.BaseApartFromFullPlan | evaluation_tasks/results_analyzer.py:172-180 | the base and full-plan counters never share a folder, so together they count at most the folders |
| ResultsAnalyzer.AggregateRates | evaluation_tasks/results_analyzer.py:193-217 | every rate lies in [0, 1] |
| ConstructionScores.ScoreOf | evaluation_tasks/construction_task_analyzer.py:47-48 | a score turn yields a score or, when the number does not parse, an error; never nothing |
| ConstructionScores.RevScanAt | evaluation_tasks/construction_task_analyzer.py:46-55 | the reversed scan reads the last score message when every later turn can be stepped over |
| ConstructionScores.ScalarContentFails | evaluation_tasks/construction_task_analyzer.py:46-58 | a system turn whose content is a number, boolean or null makes the scan of that log raise, even with an earlier score message |
| ConstructionScores.RevScanMissing | evaluation_tasks/construction_task_analyzer.py:46-55 | the reversed scan finds nothing exactly when every turn can be stepped over |
| ConstructionScores.RevScanFound | evaluation_tasks/construction_task_analyzer.py:46-55 | a score found comes from the last score message of the log |
| ConstructionScores.FolderStatusMeans | evaluation_tasks/construction_task_analyzer.py:34-65 | a task folder is scored by its first log holding a score, skipped when it has logs but no score, and has no logs otherwise |
| ConstructionScores.FolderScoreFromTurn | evaluation_tasks/construction_task_analyzer.py:37-58 | the last score message of the first log with a score decides the folder's score |
| ConstructionScores.DirVisits | evaluation_tasks/construction_task_analyzer.py:30-33 | the visits of one directory all belong to the model paired with it |
| ConstructionScores.RecordedOverall | evaluation_tasks/construction_task_analyzer.py:49-50 | a model's overall list holds the scores of its visits in visiting order |
| ConstructionScores.RecordedZeros | evaluation_tasks/construction_task_analyzer.py:53-54 | a model's zero list holds the tasks it scored exactly 0, in visiting order |
| ConstructionScores.RecordedSkipped | evaluation_tasks/construction_task_analyzer.py:62-64 | a model's skipped list holds the tasks with logs but no score, in visiting order |
| ConstructionScores.RecordedScores | evaluation_tasks/construction_task_analyzer.py:49-49 | the score table keeps, per task and model, the score of the last visit that had one |
| ConstructionScores.RecordedMeans | evaluation_tasks/construction_task_analyzer.py:30-65 | all four of the above |
| ConstructionScores.ZerosExactly | evaluation_tasks/construction_task_analyzer.py:53-54 | a task is in a model's zero list exactly when a visit of it scored 0 for that model |
| ConstructionScores.SkippedHasNoScore | evaluation_tasks/construction_task_analyzer.py:62-64 | a task visited once for a model with logs but no score is listed as skipped and has no score |
| ConstructionGroups.CompletionCounts | evaluation_tasks/construction_task_analyzer.py:73-75 | the completed tasks are at most the tasks with a score |
| ConstructionGroups.CompletionCountsMeans | evaluation_tasks/construction_task_analyzer.py:72-76 | there are tasks exactly when some task has a score for the model, completed ones exactly when one has a positive score, and all are completed exactly when every scored task is positive |
| ConstructionGroups.CompletionRateMeans | evaluation_tasks/construction_task_analyzer.py:71-76 | the completion rate lies in [0, 1], is positive exactly when some scored task is positive, and is 1 exactly when all scored tasks are |
| ConstructionGroups.CompletionRatesHold | evaluation_tasks/construction_task_analyzer.py:71-76 | every listed model has its rate and no other name has one |
| ConstructionGroups.ListAtAddScore | evaluation_tasks/construction_task_analyzer.py:87-89 | appending a score grows only the list of that key and model |
| ConstructionGroups.PositivesIn | evaluation_tasks/construction_task_analyzer.py:85-87 | the positive scores of a model in one task, and only those |
| ConstructionGroups.Positives | evaluation_tasks/construction_task_analyzer.py:79-89 | the positive scores of a model over the tasks of a key, and only those |
| ConstructionGroups.AddModelsAt | evaluation_tasks/construction_task_analyzer.py:85-89 | one task's loop appends the model's positive scores to its key only |
| ConstructionGroups.GroupTableAt | evaluation_tasks/construction_task_analyzer.py:79-89 | each group list holds exactly the model's positive scores of the tasks of that key; zero scores and unreadable names are left out |
| ConstructionGroups.GroupTableFilled | evaluation_tasks/construction_task_analyzer.py:79-89 | the groups hold no empty list and only positive scores |
| ConstructionGroups.MeanBounds | evaluation_tasks/construction_task_analyzer.py:92-92 | an average lies between the least and the greatest score averaged |
| ConstructionGroups.MeanPositive | evaluation_tasks/construction_task_analyzer.py:92-92 | the average of positive scores is positive |
| ConstructionGroups.AverageModelsMeans | evaluation_tasks/construction_task_analyzer.py:92-92 | each average is the mean of a non-empty list of the same model, and no model is dropped when no list is empty |
| ConstructionGroups.AveragesMeans | evaluation_tasks/construction_task_analyzer.py:91-93 | each key's averages come from a non-empty dictionary of that key, and no key is dropped when none is empty |
| ConstructionGroups.FilledAverages | evaluation_tasks/construction_task_analyzer.py:91-93 | averaging filled groups drops nothing and gives positive averages |
| ConstructionGroups.AveragesOfGroups | evaluation_tasks/construction_task_analyzer.py:79-97 | on the groups the loop builds, the averages drop nothing and are all positive |
| ConstructionGroups.ExtractSuccessScores | evaluation_tasks/construction_task_analyzer.py:17-18 | raises `AssertionError` exactly when the directories and model names do not pair up |
| ConstructionGroups.SummaryBounds | evaluation_tasks/construction_task_analyzer.py:17-97 | with paired inputs, every model has a completion rate in [0, 1] and every average is positive |
| TaskNames.SearchFromMeans | evaluation_tasks/construction_tasks/filter_easy_tasks.py:9-10 | the search finds the leftmost match from a position, and nothing exactly when the pattern matches nowhere |
| TaskNames.SearchMeans | evaluation_tasks/construction_tasks/filter_easy_tasks.py:9-10 | the search finds the leftmost match, and nothing exactly when the pattern matches nowhere |
| TaskNames.MatchRender | evaluation_tasks/construction_tasks/filter_easy_tasks.py:9-11 | a greedy pattern matches its own rendering wherever it sits and returns the numbers rendered, unless a digit follows |
| TaskNames.ExtractDifficulty | evaluation_tasks/construction_tasks/filter_easy_tasks.py:7-12 | a name the pattern does not match reads as (0, 0, 0, 0) |
| TaskNames.MaterialsAndRooms | evaluation_tasks/construction_task_analyzer.py:80-83 | material and room counts are read exactly when the analyzer's pattern matches |
| TaskNames.ExtractDifficultyOfTaskName | evaluation_tasks/construction_tasks/filter_easy_tasks.py:7-12 | a generated task name reads back as the parameters it was generated from |
| TaskNames.MaterialsAndRoomsOfTaskName | evaluation_tasks/construction_task_analyzer.py:80-83 | the analyzer's pattern reads the generated material and room counts back |
| TaskNames.NoMaterialsNoMatch | evaluation_tasks/construction_tasks/filter_easy_tasks.py:9-12 | a name without `materials_` matches neither pattern and reads as (0, 0, 0, 0) |
| ConstructionTasks.KeyOf | evaluation_tasks/construction_tasks/filter_easy_tasks.py:7-12 | the tuple key has four non-negative parts |
| ConstructionTasks.DifficultyOfTaskName | evaluation_tasks/construction_tasks/filter_easy_tasks.py:14-21 | a generated name is keyed by its parameters and scored `4m + 10r + 2w + c` |
| ConstructionTasks.UnreadNameEasiest | evaluation_tasks/construction_tasks/filter_easy_tasks.py:12-21 | an unreadable name counts as the easiest tuple, with score 0 |
| ConstructionTasks.Eligible | evaluation_tasks/construction_tasks/filter_training_tasks.py:26-29 | the kept tasks are exactly the tasks with at least three levels, each no more often than in the file |
| ConstructionTasks.FilteredOutCount | evaluation_tasks/construction_tasks/filter_easy_tasks.py:36-45 | every task is either filtered out or kept |
| ConstructionTasks.EligibleDistinct | evaluation_tasks/construction_tasks/filter_training_tasks.py:23-29 | the kept tasks of a JSON object have distinct names |
| ConstructionTasks.GroupList | evaluation_tasks/construction_tasks/filter_easy_tasks.py:121-127 | the list of a tuple holds exactly the kept tasks with that tuple, in file order, each once |
| EasyTasks.Easiest | evaluation_tasks/construction_tasks/filter_easy_tasks.py:67-69 | the selection holds `min(30, kept)` tasks |
| EasyTasks.ProcessJson | evaluation_tasks/construction_tasks/filter_easy_tasks.py:23-98 | raises a `ValueError` exactly when no task has three levels; otherwise filtered and kept add up to the total and `min(30, kept)` tasks are selected |
| EasyTasks.RankedPermutes | evaluation_tasks/construction_tasks/filter_easy_tasks.py:65-65 | the ranking is a rearrangement of the kept tasks |
| EasyTasks.RankedAscending | evaluation_tasks/construction_tasks/filter_easy_tasks.py:65-65 | the ranking is in ascending score |
| EasyTasks.RankedStable | evaluation_tasks/construction_tasks/filter_easy_tasks.py:65-65 | tasks of equal score keep their file order |
| EasyTasks.EasiestMembers | evaluation_tasks/construction_tasks/filter_easy_tasks.py:36-69 | the selected tasks are tasks of the file with at least three levels |
| EasyTasks.EasiestAscending | evaluation_tasks/construction_tasks/filter_easy_tasks.py:64-69 | the selected tasks come in ascending score |
| EasyTasks.EasiestAreEasiest | evaluation_tasks/construction_tasks/filter_easy_tasks.py:64-69 | every kept task left out scores at least as much as every selected one |
| EasyTasks.EasiestDistinct | evaluation_tasks/construction_tasks/filter_easy_tasks.py:69-69 | the written dictionary has one entry per selected task |
| EasyTasks.Pick | evaluation_tasks/construction_tasks/filter_easy_tasks.py:148-160 | the sample has `min(k, candidates)` tasks, each at most as often as among the candidates |
| EasyTasks.AddFresh | evaluation_tasks/construction_tasks/filter_easy_tasks.py:150-160 | adding keeps the names distinct |
| EasyTasks.AddAll | evaluation_tasks/construction_tasks/filter_easy_tasks.py:168-175 | adding keeps the names distinct |
| EasyTasks.Cells | evaluation_tasks/construction_tasks/filter_easy_tasks.py:139-160 | the nested loops keep the names distinct |
| EasyTasks.Unsampled | evaluation_tasks/construction_tasks/filter_easy_tasks.py:163-164 | the filtered list holds only tasks not sampled yet |
| EasyTasks.CellSamples | evaluation_tasks/construction_tasks/filter_easy_tasks.py:139-149 | the nine cells sample at most three tasks each |
| EasyTasks.AddFreshAppend | evaluation_tasks/construction_tasks/filter_easy_tasks.py:150-153 | adding tasks with new, distinct names appends them |
| EasyTasks.AddAllAppend | evaluation_tasks/construction_tasks/filter_easy_tasks.py:168-170 | adding tasks with new, distinct names appends them |
| EasyTasks.AddFreshMembers | evaluation_tasks/construction_tasks/filter_easy_tasks.py:150-153 | the result holds only tasks that were there or were added |
| EasyTasks.AddAllMembers | evaluation_tasks/construction_tasks/filter_easy_tasks.py:168-170 | the result holds only tasks that were there or were added |
| EasyTasks.CellSample | evaluation_tasks/construction_tasks/filter_easy_tasks.py:142-149 | a cell's sample holds kept tasks of that cell, with distinct names when the file's are |
| EasyTasks.NewCellFresh | evaluation_tasks/construction_tasks/filter_easy_tasks.py:139-151 | tasks of a later cell than every sampled task have new names |
| EasyTasks.CellsStep | evaluation_tasks/construction_tasks/filter_easy_tasks.py:139-160 | one pass of the nested loops samples the cell and adds the sample |
| EasyTasks.CellsAppend | evaluation_tasks/construction_tasks/filter_easy_tasks.py:139-160 | the cells append their samples in loop order: the `already_sampled` check never skips a task |
| EasyTasks.CellSamplesMembers | evaluation_tasks/construction_tasks/filter_easy_tasks.py:139-149 | the cells' samples are kept tasks of easy tuples |
| EasyTasks.ExtraSample | evaluation_tasks/construction_tasks/filter_easy_tasks.py:163-170 | an extra sample holds unsampled tasks of its tuple, with new and distinct names |
| EasyTasks.ZerosAppended | evaluation_tasks/construction_tasks/filter_easy_tasks.py:163-175 | the `(0, 0, 0, 0)` sample is appended after the cells |
| EasyTasks.OnesAppended | evaluation_tasks/construction_tasks/filter_easy_tasks.py:178-190 | the `(1, 0, 0, 0)` sample is appended after it |
| EasyTasks.ExtraGood | evaluation_tasks/construction_tasks/filter_easy_tasks.py:163-190 | an extra sample of an easy tuple adds only kept tasks of easy tuples |
| EasyTasks.Distribution | evaluation_tasks/construction_tasks/filter_easy_tasks.py:100-226 | the written dictionary has distinct keys |
| EasyTasks.DistributionShape | evaluation_tasks/construction_tasks/filter_easy_tasks.py:139-190 | the output is the cells' samples in loop order, then `min(2, left)` unsampled `(0, 0, 0, 0)` tasks, then `min(1, left)` unsampled `(1, 0, 0, 0)` tasks; at most 30 tasks |
| EasyTasks.CellsMembers | evaluation_tasks/construction_tasks/filter_easy_tasks.py:139-160 | the cells add only kept tasks of easy tuples |
| EasyTasks.DistributionMembers | evaluation_tasks/construction_tasks/filter_easy_tasks.py:111-190 | every task written has at least three levels and an easy tuple |
| TrainingTasks.ByTuple | evaluation_tasks/construction_tasks/filter_training_tasks.py:33-40 | the kept tasks rearranged by tuple |
| TrainingTasks.TakeGroupAppend | evaluation_tasks/construction_tasks/filter_training_tasks.py:52-58 | the inner loop appends candidates until the limit of 500 |
| TrainingTasks.TakeKeysAppend | evaluation_tasks/construction_tasks/filter_training_tasks.py:46-58 | the outer loop takes the first tasks of the visiting order, up to the limit |
| TrainingTasks.FlattenWithKey | evaluation_tasks/construction_tasks/filter_training_tasks.py:34-52 | grouping the visiting order by tuple gives back the kept tasks of each visited tuple, in file order |
| TrainingTasks.FlattenMembers | evaluation_tasks/construction_tasks/filter_training_tasks.py:46-52 | every task visited is a kept task of a visited tuple |
| TrainingTasks.FlattenSorted | evaluation_tasks/construction_tasks/filter_training_tasks.py:40-52 | visiting tuples in ascending order visits tasks in ascending tuple |
| TrainingTasks.SortedKeysFacts | evaluation_tasks/construction_tasks/filter_training_tasks.py:40-40 | the sorted tuples are exactly the table's tuples, each once, ascending |
| TrainingTasks.FlattenIsSort | evaluation_tasks/construction_tasks/filter_training_tasks.py:34-52 | the loops visit the kept tasks in the order of a stable sort by tuple |
| TrainingTasks.SelectedIsPrefix | evaluation_tasks/construction_tasks/filter_training_tasks.py:45-58 | the selection is the first `min(500, kept)` kept tasks in ascending tuple, ties in file order |
| TrainingTasks.SelectedLowest | evaluation_tasks/construction_tasks/filter_training_tasks.py:40-58 | no kept task left out has a smaller tuple than a selected one |
| TrainingTasks.TakeGroupCounts | evaluation_tasks/construction_tasks/filter_training_tasks.py:52-56 | each task the inner loop takes bumps its tuple's counter, so the counters keep summing to the number taken |
| TrainingTasks.TakeKeysCounts | evaluation_tasks/construction_tasks/filter_training_tasks.py:46-58 | the outer loop keeps the counters summing to the number taken |
| TrainingTasks.SelectedCounts | evaluation_tasks/construction_tasks/filter_training_tasks.py:41-58 | the per-tuple counts sum to the number selected, `min(500, kept)` for distinct names |
| Table.BumpTotal | evaluation_tasks/construction_tasks/filter_training_tasks.py:55-55 | `counts[k] += 1` raises the sum of the counters by one |
| TrainingTasks.FilterAndSampleHolds | evaluation_tasks/construction_tasks/filter_training_tasks.py:14-74 | the written dictionary holds exactly the selected tasks, each once, in the order the shuffle chose |
| Sorting.SortPermutes | evaluation_tasks/construction_tasks/filter_training_tasks.py:40-40 | sorting rearranges its input |
| Sorting.SortSorted | evaluation_tasks/construction_tasks/filter_training_tasks.py:40-40 | sorting puts keys in ascending lexicographic order |
| Sorting.SortStable | evaluation_tasks/construction_tasks/filter_easy_tasks.py:65-65 | elements of equal key keep their input order, as Python's sort does |
| Sorting.SortedUnique | evaluation_tasks/construction_tasks/filter_training_tasks.py:40-40 | two sorted arrangements of the same elements agree when keys identify elements |
| Sorting.SortedPrefixLowest | evaluation_tasks/construction_tasks/filter_training_tasks.py:45-58 | nothing after a sorted prefix has a smaller key than anything in it |
| Sorting.SortStringsPermutation | evaluation_tasks/cooking_tasks/make_collaboration_required_cooking_task.py:294-294 | sorting a tuple of strings forgets its order, so every ordering of a combination sorts the same |
| Choice.Sample | evaluation_tasks/construction_tasks/filter_easy_tasks.py:148-149 | `random.sample` takes exactly `k` elements; it is called only when the population has at least `k`, as the guard at line 148 checks |
| Choice.Shuffle | evaluation_tasks/construction_tasks/filter_training_tasks.py:69-69 | `random.shuffle` keeps the length |
| Choice.SampleMultiset | evaluation_tasks/construction_tasks/filter_easy_tasks.py:149-149 | a sample takes no element more often than the population holds it, and a sample as large as the population is a rearrangement |
| Choice.SampleMembers | evaluation_tasks/construction_tasks/filter_easy_tasks.py:149-152 | every sampled element is an element of the population |
| Choice.ShuffleMultiset | evaluation_tasks/construction_tasks/filter_training_tasks.py:68-70 | a shuffle is a rearrangement |
| Choice.SampleDistinct | evaluation_tasks/construction_tasks/filter_easy_tasks.py:149-153 | a sample of elements with distinct names has distinct names |
| Text.TrimEnd | evaluation_tasks/cooking_task_analyzer.py:29-29 | `rstrip('_')` leaves a prefix that does not end in `_`, having removed only underscores |
| Text.PartCount | evaluation_tasks/cooking_task_analyzer.py:70-70 | a split always has at least one part |
| Text.BeforeFirst | evaluation_tasks/cooking_tasks/make_collaboration_required_cooking_task.py:400-400 | `split("\n")[0]` is the prefix before the first newline, or the whole text |
| Text.AfterLast | evaluation_tasks/task_evaluation_engine.py:64-64 | `split(":")[-1]` is the suffix after the last colon, holding no colon, or the whole text |
| Text.NatToString | evaluation_tasks/cooking_tasks/make_collaboration_required_cooking_task.py:401-401 | `str(n)` is a non-empty run of digits |
| Text.ParseNatToString | evaluation_tasks/cooking_tasks/make_collaboration_required_cooking_task.py:401-401 | reading the digits of `str(n)` gives back `n` |
| Text.ListRepr | evaluation_tasks/cooking_tasks/make_collaboration_required_cooking_task.py:319-319 | a recipe list is rendered in brackets |
| Dict.Get | evaluation_tasks/cooking_task_analyzer.py:366-368 | a key is found exactly when it is present, with a value stored under it |
| Dict.Store | evaluation_tasks/cooking_task_analyzer.py:366-368 | assignment adds the key to the keys and keeps them distinct |
| Dict.StoreGet | evaluation_tasks/cooking_task_analyzer.py:366-368 | after `d[k] = v`, `k` reads `v` and every other key what it read before |
| Dict.StoreKeyList | evaluation_tasks/cooking_task_analyzer.py:366-368 | assignment keeps the key order, appending a key only when it is new |
| Table.GroupByFind | evaluation_tasks/construction_tasks/filter_training_tasks.py:34-37 | each tuple's list holds exactly the tasks with that tuple, in order, and only tuples some task has are present |
| Table.PushUnique | evaluation_tasks/construction_tasks/filter_training_tasks.py:37-37 | an append never creates a second entry for a tuple |
| Table.GatherGroupBy | evaluation_tasks/construction_tasks/filter_easy_tasks.py:142-145 | gathering the lists of the selected tuples collects exactly the tasks with those tuples, each as often as it occurs |
| Table.GatherMembers | evaluation_tasks/construction_tasks/filter_easy_tasks.py:142-145 | the candidates are tasks with a selected tuple, none more often than in the file |

## Left out

- Reading and writing files: every log, task file and directory listing is an already-parsed value, and a written file is the value written. Directory listings (`glob`, `os.listdir`) come in an arbitrary order, which the model takes as a given sequence.
- A log file is a JSON object, a file that cannot be opened or parsed, undecodable bytes, a top-level list or string (kept only as whether `"turns" in data` holds), or a top-level number, boolean or null (`Logs.LogFile`).
- JSON values other than strings are either a container (a list or an object) or an atom (a number, boolean or null), with their contents left out. On an atom `content` of a system turn the construction analyzer's `in` raises `TypeError`, and the model's scan fails there (`ConstructionScores.ScalarContentFails`). On a list or object content `in` tests for a member or key, not a substring; the model treats such content as holding no score message.
- A cooking task without `type` or `recipes` makes `reconfigure_tasks` raise `KeyError`, and so does a task without `recipes` or `goal` in `block_recipe_in_tasks`. `CookingTask` always holds these fields, so those errors are not modelled.
- Choice.Sample: a sample larger than its population, where `random.sample` raises `ValueError`, is excluded by its precondition. Every caller checks the length first (filter_easy_tasks.py lines 148, 166 and 181, and `Shuffle`), so that error cannot occur in the modelled scripts.
- HellsKitchen.TaskId: a task without `target` or `blocked_access_to_recipe` makes `generate_task_id` raise `KeyError`. The model takes both fields as parameters, and every caller passes a task that has them, so that error is not modelled.
- HellsKitchen.AnalyzeSplit: the `mean` and `median` of each difficulty metric are left out. The mean is a float, and both only describe the split; the `min` and `max` are modelled.
- Floating point: scores and rates are exact reals, with no rounding, infinity or NaN. `float(text)` is a parameter of type `NumberParser`, since the text-to-float grammar is not modelled.
- Randomness: `random.sample` and `random.shuffle` are functions of the numbers drawn (`Choice`). Only properties that hold for every draw are proved, never the distribution. `random.seed` is left out.
- `numpy.argmin` is modelled as the first index of the minimum (`CookingInventory.ArgMin`), not as numpy code.
- Printing, `statistics.mean` and `median` over the displayed scores, `PrettyTable` and `pandas` tables, percentage formatting and progress bars are left out: they only display results.
- Orchestration in `task_evaluation_engine.py` is left out: tmux and subprocess calls, server file copying, `launch_*`, `make_ops` with its recursive retry, the sleeps and polling, S3 uploads and profile writing. Only the values they compute are modelled: the task split, ports, session and agent names, the configuration editor and the operator check.
- The S3 download helpers of the crafting and results analyzers are left out, because they are network clients.
- The code that runs when a script is imported or run as a main program is left out, because it is file I/O over the functions modelled here. That includes the argument parsing and the loops over input files.
- Stubs with no logic are left out: `analyze_cooking_log` in `cooking_task_analyzer.py`, `analyze_crafting_log` in `crafting_task_analyzer.py`, and the call to an undefined `analyze_construction_log`.
- `multi_agent_data_collector.py`, `task_runner.py`, `blueprint_visualizer.py` and `construction_task_analyzer_v2.py` are not part of this model: they run processes, copy directories or draw pictures.
- Decimal digits are the ASCII digits. Python's `\d` and `int()` also accept other Unicode digits, which the generator never writes.
- CookingInventory.Totals: states only that there is one total per agent. Its values are fixed by its definition as sums of counts, and `PlaceItemEffect` states what the placement makes of them.
- CookingInventory.PlaceAll: states only the number of agents. `PlaceAllEffect` and `SplitInventoryShares` state what it hands each agent.
- ConstructionGroups.ExtractSuccessScores: its contract states the assertion on paired inputs. The contents of the records, rates and groups are stated by the `Recorded…`, `CompletionRate…` and `GroupTable…` lemmas, and `SummaryBounds` bounds them.
- For construction runs, `task_evaluation_engine.py` turns `successful` into the mean result, and `success_rate` then divides it by the number of folders a second time. The model keeps this as written (`EvaluationEngine.SuccessRateBounds`), since the intent cannot be told from the code.
- A score message reading `10` counts as 1, and one reading `0.5` counts as 0, because the engine tests substrings before it parses the number. This is modelled as written (`EvaluationEngine.TenReadsAsOne`, `EvaluationEngine.HalfReadsAsZero`), since partial scores may be meant to count as failures.
- In the distribution sampler, the `already_sampled` check of the nine cells never skips a task, because no two cells share a tuple. The model keeps the check and proves that it never fires (`EasyTasks.CellsAppend`).

## Findings

| source | as written | input that shows it | evidently intended | confidence | as-written member | corrected member |
|---|---|---|---|---|---|---|
| evaluation_tasks/cooking_tasks/make_collaboration_required_cooking_task.py:292-294 | The completed pairs are sorted before they are removed, but the combinations are kept in the order of `items`. A completed pair whose items appear in `items` in unsorted order is therefore never removed. | `items` = the script's test items; the completed pair `["baked_potato", "golden_apple"]` leaves the combination `("golden_apple", "baked_potato")` among the remaining ones | remove every combination that is a rearrangement of a completed pair | not executed | CookingTasks.RemainingAsWrittenKeepsCompleted | CookingTasks.RemainingExcludesCompleted |
| evaluation_tasks/task_evaluation_engine.py:599-609 | The inner loop over the settings writes every line once per setting: the new `key=value` for the matching key, and the original line for each other key. | lines `motd=hi`, `server-port=25565` with settings `server-port` and `level-name`, as `create_server_files` passes them: the port line is written as `server-port=55916` and then again as `server-port=25565`, and `motd=hi` twice | each line written once, replaced by `key=value` when a key starts it | not executed | EvaluationEngine.EditFileAsWrittenDoublesLines | EvaluationEngine.EditFileSetsPort |
