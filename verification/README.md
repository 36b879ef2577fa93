# SmartEats recommendation core in Dafny

SmartEats shows a university dining hall's daily menu with nutrition data. It lets a user
build a meal plan against daily goals and recommends a meal for a free-text request. This
project models the parts of SmartEats that decide things, and proves properties about them.

**The recommendation engine** (`recommendFromMenu`) runs six steps:

1. It normalises the constraints.
2. It filters the menu items by calories, dietary flags, allergens and avoided ingredients.
3. It ranks the survivors by protein density and keeps the top 18.
4. It enumerates the index-increasing combinations of candidates, from one item up to `maxItems`.
5. It scores every combination and keeps the first best one.
6. It attaches warnings to the result.

**Around the engine:**

- The recommend endpoint validates the request and merges the parsed prompt, the request body
  and the stored profile. It also maps database rows to engine items.
- The shaping of the language model's reply.
- The nutrition-estimate normalisation and its batching.
- The profile endpoint's payload normalisation.
- The client-side menu filter and its filter-state updates.
- The meal plan's add, remove and clear, and the meal-tab selection.
- The plan totals and progress bars.
- The goals dialog's validation and submit.
- The grouping of menu items by category and by meal period.
- The date, meal-period and slug helpers.

**How values are modelled:**

- Numbers are exact `real`s.
- A JavaScript number is a `JsNumber` (finite, NaN or ±Infinity) wherever the code branches on
  NaN or Infinity.
- `Number(...)` and `parseFloat` are defined for decimal literals.
- Strings are `seq<char>`.
- The database, the session, the clock and the language model are parameters: their answers are
  inputs to the model.

**Modules:**

| module | models |
|---|---|
| `Engine`, `EngineCandidates`, `EngineCombos`, `EngineScoring`, `Types` | the engine |
| `RecommendRoute`, `PromptParse` | the recommend endpoint and the reply shaping |
| `NutritionEstimates` | the nutrition estimates |
| `ProfileRoute` | the profile endpoint |
| `FilterPanel` | the menu filter |
| `MealPlan`, `PlanSummary` | the meal plan and its summary |
| `GoalsModal` | the goals dialog |
| `MealSection`, `ApiClient`, `Grouping` | menu grouping |
| `Utils` | the helpers |
| `Text`, `TextRoundTrip`, `Seqs`, `JsNumbers`, `JsValues`, `Wrappers` | the JavaScript string, array and number operations the rest uses |

**Enumeration uses the corrected stop rule.** The combination enumeration in the model stops at
a length `>= maxItems`. The code as written tests `=== maxItems`; see "## Findings".

## Model

| member | source | states |
|---|---|---|
| EngineCandidates.NormalizeConstraints | src/lib/recommendations/engine.ts:20-36 | `maxItems` always ends in [1, 6]. It is 4 when unset, kept when already in range, and clamped to the nearer end otherwise. Each missing list becomes empty, and every other field is unchanged. |
| EngineCandidates.NormalizeIdempotent | src/lib/recommendations/engine.ts:20-36 | Normalising normalised constraints changes nothing. |
| EngineCandidates.LowerAll | src/lib/recommendations/engine.ts:43 | Lower-cases a list element by element, keeping its length. |
| EngineCandidates.MatchesDietaryFlags | src/lib/recommendations/engine.ts:38-45 | Every requested flag, lower-cased, is among the item's lower-cased flags. The early `true` for an empty request agrees with `every` on an empty list. |
| EngineCandidates.HasExcludedAllergen | src/lib/recommendations/engine.ts:47-54 | Some excluded allergen, lower-cased, is among the item's lower-cased allergens. The early `false` for an empty list agrees with `some` on an empty list. |
| EngineCandidates.MatchesIngredientPreference | src/lib/recommendations/engine.ts:56-65 | `avoidHit` holds exactly when some avoid term, lower-cased, occurs in the lower-cased name. `preferHit` is the same for prefer terms. |
| EngineCandidates.Survives | src/lib/recommendations/engine.ts:71-82 | The four filters of `buildCandidates`: nutrition with calories, the dietary flags, no excluded allergen, no avoided term in the name. `CandidatesMeetFilters` spells them out. |
| EngineCandidates.ToCandidate | src/lib/recommendations/engine.ts:83-97 | A candidate keeps its item and reads missing macros as 0. Its density times its calories is its protein when calories are positive; otherwise the density is 0. |
| EngineCandidates.Insert | src/lib/recommendations/engine.ts:98 | Insertion into a ranked list keeps it ranked (density descending, ties by protein descending) and adds exactly that element, last among the candidates it ties with. |
| EngineCandidates.RankedCons | src/lib/recommendations/engine.ts:98 | Prepending an element that ranks at least as high as the head keeps a list ranked. |
| EngineCandidates.InsertHead | src/lib/recommendations/engine.ts:98 | After insertion behind the head, the head still ranks at least as high as the new second element. |
| EngineCandidates.SortByRank | src/lib/recommendations/engine.ts:98 | The sort returns a ranked permutation of its input that keeps candidates of equal density and protein in input order, as the stable `Array.prototype.sort` does. |
| EngineCandidates.InsertFrontTies | src/lib/recommendations/engine.ts:98 | An element placed before everything it ranks strictly above comes last among the candidates it ties with. |
| EngineCandidates.ConsTies | src/lib/recommendations/engine.ts:98 | A common head keeps the relation between the tie classes of two lists. |
| EngineCandidates.SnocTies | src/lib/recommendations/engine.ts:98 | Appending an element adds it at the end of its own tie class only. |
| EngineCandidates.SameTieOrderNonEmpty | src/lib/recommendations/engine.ts:98 | A list with the same tie order as a non-empty one shares its first element. |
| EngineCandidates.SameTieOrderHead | src/lib/recommendations/engine.ts:98 | Two ranked lists with the same tie order start with the same candidate. |
| EngineCandidates.SameTieOrderTail | src/lib/recommendations/engine.ts:98 | Dropping a common head keeps the tie order. |
| EngineCandidates.RankedTieOrderUnique | src/lib/recommendations/engine.ts:98 | Only one ranked arrangement has a given tie order, so the comparator plus stability fix the sorted list. |
| EngineCandidates.RankedSurvivors | src/lib/recommendations/engine.ts:71-98 | The ranked survivors are a ranked permutation of the candidates built from the items that pass the four filters. Candidates of equal rank stay in menu order. |
| EngineCandidates.RankedSurvivorsUnique | src/lib/recommendations/engine.ts:71-98 | Any ranked list of the survivors that keeps ties in menu order is the ranked survivor list. |
| EngineCandidates.TakeTieOrder | src/lib/recommendations/engine.ts:99 | `slice(0, n)` keeps a prefix of each tie class. |
| EngineCandidates.BuildCandidates | src/lib/recommendations/engine.ts:67-100 | The result is ranked and holds min(survivors, 18) candidates. Each one is built from an input item that passes every filter. Within each class of equal rank it holds the earliest survivors in menu order. |
| EngineCandidates.RankedSurvivorIsSurvivor | src/lib/recommendations/engine.ts:71-97 | Every ranked survivor comes from an input item that passes the filters. |
| EngineCandidates.CandidatesMeetFilters | src/lib/recommendations/engine.ts:38-82 | Every candidate has nutrition and calories. It carries every required flag and none of the excluded allergens (both compared ignoring case), and its name contains no avoid term. |
| EngineCandidates.CandidatesCompleteWhenFew | src/lib/recommendations/engine.ts:99 | With at most 18 survivors, every survivor becomes a candidate. |
| EngineCandidates.CandidatesAreTopRanked | src/lib/recommendations/engine.ts:98-99 | A survivor cut by the limit of 18 ranks no higher than any kept candidate. |
| EngineCombos.EnumerateExtends | src/lib/recommendations/engine.ts:212-231 | Enumeration only appends to the combinations already recorded. |
| EngineCombos.Enumerate | src/lib/recommendations/engine.ts:212-231 | `buildCombos(start, current)`: record a non-empty prefix, stop at the length limit, otherwise extend by each later index. Its properties are the `Enumerate*` lemmas. |
| EngineCombos.EnumerateFrom | src/lib/recommendations/engine.ts:217-230 | The `for` loop of `buildCombos` from index i on, returning once more than 2000 combinations are recorded. |
| EngineCombos.EnumerateFromExtends | src/lib/recommendations/engine.ts:217-230 | The loop over start positions only appends. |
| EngineCombos.EnumerateShape | src/lib/recommendations/engine.ts:212-231 | Every recorded combination is non-empty and strictly increasing, with every index below the candidate count. Under the corrected rule it has fewer than maxItems + 1 entries. |
| EngineCombos.EnumerateFromShape | src/lib/recommendations/engine.ts:217-230 | The loop over start positions keeps the same shape. |
| EngineCombos.ChildExtends | src/lib/recommendations/engine.ts:219-228 | A child call's combinations all extend the current prefix. |
| EngineCombos.EnumerateDistinct | src/lib/recommendations/engine.ts:212-231 | No combination is recorded twice. |
| EngineCombos.EnumerateFromDistinct | src/lib/recommendations/engine.ts:217-230 | The loop over start positions records no combination twice. |
| EngineCombos.EnumerateCount | src/lib/recommendations/engine.ts:229 | With the corrected rule, the `> 2000` check after each child call caps the count. If at most d more positions can follow the prefix, at most 2000 + d + 1 combinations are recorded, unless more were recorded before. |
| EngineCombos.EnumerateFromCount | src/lib/recommendations/engine.ts:217-230 | The same cap for the loop over start positions. |
| EngineCombos.RulesAgree | src/lib/recommendations/engine.ts:216 | For a whole-number maxItems, stopping at `=== maxItems` and at `>= maxItems` record the same combinations. |
| EngineCombos.RulesAgreeFrom | src/lib/recommendations/engine.ts:216-230 | The same agreement for the loop over start positions. |
| EngineCombos.Range | src/lib/recommendations/engine.ts:217 | The list of indices from `a` up to `b`. |
| EngineCombos.ChainRecorded | src/lib/recommendations/engine.ts:212-231 | While no stop applies and the cap is not reached, the prefix followed by every later index is recorded. |
| EngineCombos.ExactRuleOvershoots | src/lib/recommendations/engine.ts:216 | As written, with seven candidates and maxItems 5.5, a combination of all seven is recorded. |
| EngineCombos.Combos | src/lib/recommendations/engine.ts:212-233 | With maxItems in [1, 6], every combination is distinct, increasing and in range. Each has at least 1 and fewer than maxItems + 1 entries, so at most 6. There are at most 2006, and the first is the best-ranked candidate alone. |
| EngineCombos.EnumerateComplete | src/lib/recommendations/engine.ts:212-231 | Unless the cap cut it short, `buildCombos(start, current)` records every increasing, in-range combination that extends `current` with positions from `start` on and that no stop cuts off. |
| EngineCombos.EnumerateFromComplete | src/lib/recommendations/engine.ts:217-230 | The same completeness for the loop over start positions. |
| EngineCombos.CombosComplete | src/lib/recommendations/engine.ts:212-233 | When at most 2000 combinations are listed, every increasing list of candidate positions with at least 1 and fewer than maxItems + 1 entries is among them. |
| EngineCombos.EnumerateSize | src/lib/recommendations/engine.ts:212-231 | `buildCombos(start, current)` records `current` and at most one combination per non-empty set of positions from `start` on, so at most 2^(n − start) − 1 more. |
| EngineCombos.EnumerateFromSize | src/lib/recommendations/engine.ts:217-230 | The loop from position i records at most 2^(n − i) − 1 combinations. |
| EngineCombos.SmallMenuUnderCap | src/lib/recommendations/engine.ts:212-233 | With at most ten candidates at most 1023 combinations are listed, so the 2000 cap never applies. |
| EngineCombos.SmallMenuCombos | src/lib/recommendations/engine.ts:212-233 | With at most ten candidates, a list is a combination exactly when it is increasing, in range, and has at least 1 and fewer than maxItems + 1 entries. |
| EngineCombos.FirstCombo | src/lib/recommendations/engine.ts:213-219 | The first combination recorded is `[0]`. |
| EngineCombos.CombosAsWritten | src/lib/recommendations/engine.ts:216 | For a whole maxItems from 1 to 6, the corrected enumeration equals the code as written. |
| EngineCombos.ComboBuilder.constructor | src/lib/recommendations/engine.ts:210 | Starts with no combinations. |
| EngineCombos.ComboBuilder.Build | src/lib/recommendations/engine.ts:212-231 | The recursive `buildCombos`, pushing into a shared array, leaves exactly the reference enumeration appended to the old contents. |
| EngineScoring.ComboTotalsAppend | src/lib/recommendations/engine.ts:108-120 | The totals reduction is additive over concatenation. |
| EngineScoring.ComboTotals | src/lib/recommendations/engine.ts:108-120 | The left-to-right `reduce` of a combination: each item adds its macros (0 when missing) times its quantity. |
| EngineScoring.SumAssociative | src/lib/recommendations/engine.ts:108-120 | Adding totals is associative. |
| EngineScoring.Excess | src/lib/recommendations/engine.ts:123-137 | The excess over an upper bound is never negative, and is zero exactly when the bound is absent or met. |
| EngineScoring.Shortfall | src/lib/recommendations/engine.ts:126-131 | The shortfall under a lower bound is never negative, and is zero exactly when the bound is absent or met. |
| EngineScoring.PenaltyZeroIff | src/lib/recommendations/engine.ts:122-137 | The penalty is never negative, and is zero exactly when every set bound is met. |
| EngineScoring.Penalty | src/lib/recommendations/engine.ts:122-137 | The weighted penalty for the bounds the totals miss: never negative. `PenaltyZeroIff` says when it is zero. |
| EngineScoring.PreferenceBoostCounts | src/lib/recommendations/engine.ts:139-149 | The preference term is 8 times the number of items matching a prefer term, minus 20 times the number of recently eaten items. |
| EngineScoring.PreferenceBoost | src/lib/recommendations/engine.ts:139-149 | The loop over the combination: −20 per recent item and +8 per item whose name mentions a prefer term. `PreferenceBoostCounts` gives the closed form. |
| EngineScoring.FilterCountSnoc | src/lib/recommendations/engine.ts:141-149 | Appending an item raises a count by one exactly when the item qualifies. |
| EngineScoring.BuildTargets | src/lib/recommendations/engine.ts:164-181 | No targets exactly when there are no goals or all four are missing. Otherwise each target is a third of its goal, with a missing goal counted as 0. |
| EngineScoring.TargetBoost | src/lib/recommendations/engine.ts:151-155 | The target term is never positive and is 0 without targets. With targets it is 0 exactly when calories and protein hit them. |
| EngineScoring.ScoreOfPlainCombo | src/lib/recommendations/engine.ts:157-160 | With every bound met, no targets, no prefer terms and no recent items, the score is 2·protein − 0.05·calories. |
| EngineScoring.PreferenceBoostAppend | src/lib/recommendations/engine.ts:139-149 | The preference term is additive over concatenation. |
| EngineScoring.SwapKeepsTotals | src/lib/recommendations/engine.ts:108-120 | Swapping an item for one with the same quantity and nutrition keeps the totals. |
| EngineScoring.SameTotalsAppend | src/lib/recommendations/engine.ts:108-120 | Combinations with equal totals still have equal totals after the same suffix. |
| EngineScoring.ComboTotalsSnoc | src/lib/recommendations/engine.ts:108-120 | Appending an item is one reduction step. |
| EngineScoring.SwapBoost | src/lib/recommendations/engine.ts:139-149 | Swapping one item changes the preference term by exactly that item's change. |
| EngineScoring.RecentSwapCostsTwenty | src/lib/recommendations/engine.ts:142 | Swapping a recently eaten item for an identical one not eaten recently raises the score by exactly 20. |
| EngineScoring.ScoreCombo | src/lib/recommendations/engine.ts:102-162 | The imperative penalty, preference and target accumulation computes the reference totals and score. |
| EngineScoring.ComboScore | src/lib/recommendations/engine.ts:157-161 | The score: 2·protein − 0.05·calories + target term + preference term − penalty. `ScoreCombo` computes it imperatively. |
| Engine.ComboItems | src/lib/recommendations/engine.ts:219-227 | Each entry is its candidate's item with quantity 1 and that candidate's density as its score. |
| Engine.NoMatch | src/lib/recommendations/engine.ts:193-201 | The fixed empty result: no items, zero totals, the normalised constraints, and one warning. |
| Engine.ToRecommendationItem | src/lib/recommendations/engine.ts:219-227 | A candidate as a combination entry: its id, name and nutrition, quantity 1, and its density as score. |
| Engine.Scores | src/lib/recommendations/engine.ts:235-241 | One score per combination, in enumeration order. |
| Engine.AllTotals | src/lib/recommendations/engine.ts:235-241 | One set of totals per combination, in enumeration order. |
| Engine.FirstMaxUnique | src/lib/recommendations/engine.ts:242 | The first position holding the maximum is unique, so strict `>` determines the choice. |
| Engine.ScanStep | src/lib/recommendations/engine.ts:242-246 | One scan step keeps "best so far is the first maximum of the prefix". |
| Engine.ScanDone | src/lib/recommendations/engine.ts:235-247 | A finished scan has found the first maximum. |
| Engine.PickBest | src/lib/recommendations/engine.ts:206-247 | No combinations give the empty pick with zero totals. Otherwise the pick is the first best-scoring combination, with its own totals. |
| Engine.Warnings | src/lib/recommendations/engine.ts:249-254 | The calorie warning appears exactly when a cap is set and exceeded. The protein warning appears exactly when a minimum is set and missed. There are at most two. |
| Engine.CollectWarnings | src/lib/recommendations/engine.ts:249-254 | The pushes build exactly the reference warnings. |
| Engine.NoWarningsWithinBounds | src/lib/recommendations/engine.ts:249-254 | Totals within every bound draw no warning. |
| Engine.ChosenSize | src/lib/recommendations/engine.ts:203-247 | The chosen combination has at least 1 and fewer than maxItems + 1 entries, so at most 6. |
| Engine.Choose | src/lib/recommendations/engine.ts:203-265 | Once candidates exist, the result holds the first best combination, its totals, the constraints, the fixed explanation and the warnings. |
| Engine.RecommendFromMenu | src/lib/recommendations/engine.ts:183-266 | The constraints are normalised. No candidates give the fixed empty result with its single warning. Otherwise the result is the first best combination, with at least 1 and fewer than maxItems + 1 items. |
| RecommendRoute.Round | src/app/api/recommend/route.ts:27 | `Math.round`: the integer within half of x, halves going up. |
| RecommendRoute.ClampMaxItems | src/app/api/recommend/route.ts:25-28 | Null for a missing, zero or non-finite value. Otherwise a whole number in [1, 6]: 1 below 0.5, 6 from 5.5 on, and x rounded in between. |
| RecommendRoute.ClampMaxItemsIdempotent | src/app/api/recommend/route.ts:97 | Clamping a clamped value changes nothing, so the second clamp in the merge is harmless. |
| RecommendRoute.UniqueStrings | src/app/api/recommend/route.ts:15-23 | The output is trimmed, lower-cased and non-empty, with no duplicates. It has the same members as the normalised input, in first-occurrence order. |
| RecommendRoute.DedupClean | src/app/api/recommend/route.ts:16-22 | Deduplication keeps entries clean. |
| RecommendRoute.UniqueStringsMembers | src/app/api/recommend/route.ts:15-23 | A string is in the output exactly when it is the trimmed, lower-cased form of some string element. |
| RecommendRoute.MergeList | src/app/api/recommend/route.ts:98-117 | A merged list is `uniqueStrings` of the parsed, body and stored lists concatenated in that order. It is clean and duplicate-free, holds exactly their normalised entries, and keeps them in first-occurrence order. |
| RecommendRoute.MergeConstraints | src/app/api/recommend/route.ts:94-118 | Numeric bounds come from the parse. The meal period comes from the body. A body maxItems beats the parsed one, and either way it is clamped. Each list is the merge of parse, body and profile. |
| RecommendRoute.MergeGoals | src/app/api/recommend/route.ts:128-133 | Each goal is the profile's value when present, otherwise the body's. |
| RecommendRoute.ToEngineItem | src/app/api/recommend/route.ts:135-171 | Identity fields are copied. Nutrition is null exactly when every scalar is null and every map or list is null or empty. Otherwise each field is read as the route reads it. |
| RecommendRoute.DecimalColumn | src/app/api/recommend/route.ts:30-34 | `toNumber` on a decimal column, which arrives as text: null stays null, blank text gives 0, and other text is `Number` of it when finite. |
| RecommendRoute.DecimalColumnOfNat | src/app/api/recommend/route.ts:30-34 | A decimal column holding a whole number reads as that number. |
| RecommendRoute.RowWithoutCaloriesSkipped | src/app/api/recommend/route.ts:137 | A row without calories never survives the engine's filters. |
| RecommendRoute.RecentIds | src/app/api/recommend/route.ts:71-73 | The recent set holds exactly the non-null, non-zero ids. |
| RecommendRoute.HasRequiredFields | src/app/api/recommend/route.ts:52-65 | `prompt`, `diningHall`, `date` and `mealPeriod` are all non-empty strings. |
| RecommendRoute.Post | src/app/api/recommend/route.ts:36-185 | Each path has its outcome: 400 without a database, 400 on unreadable JSON, a throw on a null body, 400 when a required field is missing, and 404 when the meal is not on the menu. Otherwise the result is the engine's answer for the merged constraints and goals. |
| RecommendRoute.RouteMaxItemsWhole | src/app/api/recommend/route.ts:56-58 | The engine always receives a whole maxItems in [1, 6] from this endpoint, so the stop test as written and the corrected one agree here. |
| PromptParse.NormalizeNumber | src/lib/openai/recommendation.ts:27-30 | Keeps exactly the finite numbers. |
| PromptParse.NormalizeNumberVersusToNumber | src/lib/openai/recommendation.ts:27-30 | It agrees with the engine's `toNumber` except on strings, which it always drops. |
| PromptParse.NumericStringDropped | src/lib/openai/recommendation.ts:27-30 | A numeric string is dropped here, but read by `toNumber`. |
| PromptParse.CleanString | src/lib/openai/recommendation.ts:35 | The result is trimmed and lower-case. A non-string gives "". A string gives "" exactly when it is blank. |
| PromptParse.CleanStringOfClean | src/lib/openai/recommendation.ts:35 | A clean string is its own cleaning. |
| PromptParse.JsStrings | src/lib/openai/recommendation.ts:32-37 | Wraps each string as a JavaScript string, in order. |
| PromptParse.NormalizeArray | src/lib/openai/recommendation.ts:32-37 | A non-array gives []. Otherwise the result is the clean forms of the elements, in order: non-strings and blanks are dropped and duplicates are kept. |
| PromptParse.NormalizeArrayAppend | src/lib/openai/recommendation.ts:32-37 | Normalisation distributes over concatenation. |
| PromptParse.NormalizeArrayIdempotent | src/lib/openai/recommendation.ts:32-37 | Normalising a normalised list changes nothing. |
| PromptParse.ShapeConstraints | src/lib/openai/recommendation.ts:59-74 | A null or undefined reply makes the property reads throw. Otherwise the five bounds and maxItems pass through `normalizeNumber` unclamped, the lists through `normalizeArray`, and the meal period is lower-cased when it is a string. |
| PromptParse.ShapedListsClean | src/lib/openai/recommendation.ts:67-70 | Every shaped list entry is clean. |
| PromptParse.NormalizeCleanList | src/lib/openai/recommendation.ts:32-37 | A list of clean strings normalises to itself. |
| PromptParse.ShapeReplyFor | src/lib/openai/recommendation.ts:59-74 | A reply that writes clean constraints out as JSON shapes back to those constraints. |
| PromptParse.ShapeOfCleanReply | src/lib/openai/recommendation.ts:61-74 | Any reply whose fields carry clean constraints shapes to them. |
| PromptParse.NumbersRead | src/lib/openai/recommendation.ts:62-73 | The numeric and meal-period fields are read back as written. |
| PromptParse.CleanListsRead | src/lib/openai/recommendation.ts:67-70 | The list fields are read back as written. |
| PromptParse.CleanListRead | src/lib/openai/recommendation.ts:32-37 | A list of clean strings written as a JSON array normalises back to itself. |
| PromptParse.ShapeOfFields | src/lib/openai/recommendation.ts:61-74 | Shaping is determined by the eleven fields read. |
| PromptParse.ReplyNumberFields | src/lib/openai/recommendation.ts:62-66 | The written-out reply carries each number or null. |
| PromptParse.ReplyListFields | src/lib/openai/recommendation.ts:67-70 | The written-out reply carries each list. |
| NutritionEstimates.Clamp | src/lib/openai/nutrition.ts:208-210 | The result lies in [lo, hi] when lo ≤ hi. A value already in range is kept; below lo gives lo, above hi gives hi. |
| NutritionEstimates.ClampField | src/lib/openai/nutrition.ts:180-186 | `clamp(v \|\| 0, lo, hi)`: always in range. Missing or NaN gives lo (0), an in-range value is kept, and +Infinity gives hi. |
| NutritionEstimates.PickKeys | src/lib/openai/nutrition.ts:188-201 | Only the named vitamin or mineral keys with a value are kept, each with its value. |
| NutritionEstimates.PickKeysAgain | src/lib/openai/nutrition.ts:188-201 | Picking the keys again from what was picked keeps all of it. |
| NutritionEstimates.OrDefault | src/lib/openai/nutrition.ts:187 | A missing or empty string becomes the fallback; anything else is kept. |
| NutritionEstimates.ArrayOrEmpty | src/lib/openai/nutrition.ts:202-203 | An array is kept; anything else becomes []. |
| NutritionEstimates.ValidateAndNormalize | src/lib/openai/nutrition.ts:177-206 | Each macro is `clamp(v \|\| 0, 0, max)` of its own field, so missing or NaN gives 0 (calories 3000, protein 200, carbs 500, fat 200, fiber 100, sugar 200, sodium 5000). Vitamins and minerals keep exactly the named keys that have a value. Serving size and confidence default to "1 serving" and "medium". Non-array lists become []. |
| NutritionEstimates.ValidateIdempotent | src/lib/openai/nutrition.ts:177-206 | Normalising a normalised estimate changes nothing. |
| NutritionEstimates.SingleBatch | src/lib/openai/nutrition.ts:141-171 | A successful call gives one normalised entry per reply item, with the name kept. A failed call, or an item without nutrition, is an error. |
| NutritionEstimates.Chunks | src/lib/openai/nutrition.ts:126-130 | Consecutive chunks of 1 to 10 dishes that concatenate back to the input. |
| NutritionEstimates.ChunksCons | src/lib/openai/nutrition.ts:126-127 | The chunks are the first ten dishes followed by the chunks of the rest. |
| NutritionEstimates.BatchCons | src/lib/openai/nutrition.ts:126-130 | The batch is the first chunk's call followed by the batch of the rest. |
| NutritionEstimates.Batch | src/lib/openai/nutrition.ts:112-172 | `generateNutritionBatch`: the calls for the chunks of ten, concatenated in order; a failing call fails all. |
| NutritionEstimates.PrependEmpty | src/lib/openai/nutrition.ts:129 | Prefixing nothing, or appending nothing, changes nothing. |
| NutritionEstimates.PrependAssoc | src/lib/openai/nutrition.ts:129 | Successive prefixes concatenate. |
| NutritionEstimates.GenerateBatch | src/lib/openai/nutrition.ts:112-172 | The chunking loop returns the reference batch: no call for an empty list, one call for up to ten dishes, and results in chunk order otherwise. |
| NutritionEstimates.BatchEmpty | src/lib/openai/nutrition.ts:115-117 | The empty list gives no items. |
| NutritionEstimates.BatchOneEntryPerDish | src/lib/openai/nutrition.ts:122-133 | When every call answers one complete entry per dish, the batch succeeds with one entry per dish. |
| ProfileRoute.TrimString | src/app/api/profile/route.ts:9 | A string is trimmed; a non-string gives "". |
| ProfileRoute.NormalizeStringArray | src/app/api/profile/route.ts:6-11 | A non-array gives null, not []. Otherwise the result is the trimmed non-empty strings, in order, with case kept. |
| ProfileRoute.LowerAll | src/app/api/profile/route.ts:6-11 | Lower-cases a list element by element. |
| ProfileRoute.StringArrayVersusNormalizeArray | src/app/api/profile/route.ts:6-11 | Lower-casing this result gives exactly the prompt parser's `normalizeArray`. |
| ProfileRoute.LowerAllFilter | src/app/api/profile/route.ts:10 | Lower-casing commutes with dropping empties. |
| ProfileRoute.StringArrayOfTrimmed | src/app/api/profile/route.ts:6-11 | A list of trimmed non-empty strings normalises to itself. |
| ProfileRoute.BuildPayload | src/app/api/profile/route.ts:45-56 | Each goal goes through `normalizeNumber` and each list through `normalizeStringArray`. Notes are trimmed when a string, otherwise null. |
| ProfileRoute.Get | src/app/api/profile/route.ts:22-30 | 401 without a signed-in user; otherwise the stored profile. |
| ProfileRoute.Put | src/app/api/profile/route.ts:32-60 | 401 without a signed-in user, 400 on unreadable JSON, and a throw on a null body. Otherwise the payload is upserted. |
| ProfileRoute.BodyForNumbers | src/app/api/profile/route.ts:46-49 | A payload written out as a body carries each goal as a number or null. |
| ProfileRoute.BodyForLists | src/app/api/profile/route.ts:50-54 | A payload written out as a body carries each list or null. |
| ProfileRoute.BuildPayloadStorable | src/app/api/profile/route.ts:45-56 | Every payload built from a body has trimmed non-empty list entries and trimmed notes. |
| ProfileRoute.ListRoundTrip | src/app/api/profile/route.ts:6-11 | A stored list written out reads back as itself. |
| ProfileRoute.BuildPayloadRoundTrip | src/app/api/profile/route.ts:45-56 | A storable payload written out as a body builds back to itself. |
| ProfileRoute.NumberRoundTrip | src/app/api/profile/route.ts:13-20 | A goal written as a number or null reads back as itself. |
| ProfileRoute.PutRoundTrip | src/app/api/profile/route.ts:32-60 | Putting a storable payload's body upserts that payload. |
| JsValues.ToFiniteNumber | src/lib/recommendations/engine.ts:11-18 | Finite numbers are kept. A non-blank string is read with `Number` and kept when finite. Everything else is null. The profile route's `normalizeNumber` (src/app/api/profile/route.ts:13-20) is the same code. |
| JsValues.ToFiniteNumberOfNatString | src/lib/recommendations/engine.ts:13-16 | A whole-number string reads as its value. |
| JsValues.DigitsTrimmed | src/lib/recommendations/engine.ts:13 | A digit string is already trimmed. |
| JsValues.RouteToNumber | src/app/api/recommend/route.ts:30-34 | Null or undefined gives null. A number or non-blank string agrees with `ToFiniteNumber`. A blank string reads as 0. |
| JsNumbers.DigitChar | src/lib/utils/index.ts:23-24 | The digit character for 0 to 9 has that value. |
| JsNumbers.DigitRun | src/lib/recommendations/engine.ts:14 | The longest digit prefix: all digits, followed by a non-digit or the end. |
| JsNumbers.Pow10 | src/lib/recommendations/engine.ts:14 | 10^n: 1 for n = 0 and 10 for n = 1. With `Pow10Add`, this pins it to the n-th power of ten. |
| JsNumbers.Pow10Add | src/lib/recommendations/engine.ts:14 | 10^(a+b) = 10^a·10^b. |
| JsNumbers.DigitsReal | src/lib/recommendations/engine.ts:14 | The value of a digit string, as a non-negative real. |
| JsNumbers.DigitsRealValue | src/lib/recommendations/engine.ts:14 | It equals the natural-number value of the digits. |
| JsNumbers.DigitsRealBound | src/lib/recommendations/engine.ts:14 | A k-digit string is below 10^k. |
| JsNumbers.DigitsRealFront | src/lib/recommendations/engine.ts:14 | The leading digit contributes its value times 10 to the number of digits after it. |
| JsNumbers.Scale | src/lib/recommendations/engine.ts:14 | m·10^e for any integer e. It keeps m for e = 0 and keeps the sign of m. `ScaleUp` and `ScaleDown` give the product and the quotient. |
| JsNumbers.ScaleStep | src/lib/recommendations/engine.ts:14 | Raising the exponent by one multiplies by 10. |
| JsNumbers.ScaleNegate | src/lib/recommendations/engine.ts:14 | Scaling commutes with negation. |
| JsNumbers.ScaleAdd | src/lib/recommendations/engine.ts:14 | Scaling by a then by b is scaling by a + b. |
| JsNumbers.ScaleUp | src/lib/recommendations/engine.ts:14 | For e ≥ 0 the result is m·10^e. |
| JsNumbers.ScaleDown | src/lib/recommendations/engine.ts:14 | For e ≥ 0, scaling by −e gives m/10^e. |
| JsNumbers.ScaleSum | src/lib/recommendations/engine.ts:14 | Scaling distributes over addition. |
| JsNumbers.Fraction | src/lib/recommendations/engine.ts:14 | The value of fraction digits lies in [0, 1), and no digits give 0. |
| JsNumbers.FractionValue | src/lib/recommendations/engine.ts:14 | Fraction digits f are worth their integer value times 10^−|f|. |
| JsNumbers.DecimalMantissa | src/lib/recommendations/engine.ts:14 | The value of `int.frac` lies from the integer value up to the next integer. Without fraction digits it is the integer value. |
| JsNumbers.DecimalMantissaValue | src/lib/recommendations/engine.ts:14 | `int.frac` is the integer value plus the fraction digits' value times 10^−(number of fraction digits). |
| JsNumbers.ExponentPart | src/lib/recommendations/engine.ts:14 | An exponent part exists exactly when the text starts with `e` or `E`, then an optional sign, then a digit. It uses at least two characters and stops before a digit. |
| JsNumbers.ExponentPartValue | src/lib/recommendations/engine.ts:14 | The exponent read is the value of the whole digit run after the optional sign, negated exactly for `-`. |
| JsNumbers.Mantissa | src/lib/recommendations/engine.ts:14 | Digits with an optional fraction exist exactly when the text starts with a digit, or with `.` and a digit. They stop before a digit. |
| JsNumbers.UnsignedDecimal | src/lib/recommendations/engine.ts:14 | A literal exists exactly when the text starts with a digit, or with `.` and a digit. It consumes a non-empty prefix that stops before a digit, and gives a finite, non-negative value. |
| JsNumbers.SignedNumberPrefix | src/components/FilterPanel.tsx:263 | Each spelling of Infinity with its sign gives that infinity. Otherwise there is a value exactly when an unsigned literal follows the sign, and it is that literal negated exactly for `-`. It is never NaN. |
| JsNumbers.InfinityAfterSign | src/components/FilterPanel.tsx:263 | Each spelling of Infinity fixes the sign length and leaves "Infinity" after the sign. |
| JsNumbers.StringToNumber | src/lib/recommendations/engine.ts:14 | `Number(s)`: blank text gives 0. Otherwise the trimmed text must be one signed literal in full, which gives its value; anything else gives NaN. |
| JsNumbers.ParseFloat | src/components/FilterPanel.tsx:263 | `parseFloat`: after leading white space, the longest numeric prefix, whatever follows. NaN exactly when there is none, so always when the text after the white space starts with anything but a sign, a digit, `.` or `I`. |
| JsNumbers.NatToString | src/lib/utils/index.ts:22-24 | `String(n)`: non-empty digits without a leading zero, whose value is n. |
| JsNumbers.ExponentPartOf | src/lib/recommendations/engine.ts:14 | `e[-]k` followed by a non-digit reads as ±k and uses exactly its own characters. |
| JsNumbers.ExponentAfter | src/lib/recommendations/engine.ts:14 | An exponent whose digits are a known run reads as their signed value. |
| JsNumbers.ExponentAt | src/lib/recommendations/engine.ts:14 | An exponent whose digit run has length n uses the sign and those n digits. |
| JsNumbers.MantissaOfLiteral | src/lib/recommendations/engine.ts:14 | The digits and fraction of a literal read back as themselves and use exactly their own characters. |
| JsNumbers.MantissaOfDigits | src/lib/recommendations/engine.ts:14 | Digits followed by neither a digit nor `.` read as those digits. |
| JsNumbers.MantissaOfFraction | src/lib/recommendations/engine.ts:14 | `i.f` followed by a non-digit reads as i and f. |
| JsNumbers.MantissaWithFraction | src/lib/recommendations/engine.ts:14 | Digits, `.` and a digit run read as that integer and fraction. |
| JsNumbers.UnsignedDecimalOfLiteral | src/lib/recommendations/engine.ts:14 | An unsigned literal followed by text that does not continue it reads as its value times 10 to its exponent, using exactly its own characters. |
| JsNumbers.UnsignedWithExponent | src/lib/recommendations/engine.ts:14 | Digits followed by an exponent part read as the mantissa scaled by the exponent. |
| JsNumbers.UnsignedWithoutExponent | src/lib/recommendations/engine.ts:14 | Digits not followed by an exponent part read as the mantissa. |
| JsNumbers.SignedNumberPrefixOfLiteral | src/components/FilterPanel.tsx:263 | A signed literal `[-]d.f[e[-]k]` followed by text that does not continue it reads as its signed value, using exactly its own characters. |
| JsNumbers.LiteralSign | src/components/FilterPanel.tsx:263 | A literal is its sign followed by its unsigned text, and its value is the unsigned value negated exactly for `-`. |
| JsNumbers.SignedCompose | src/components/FilterPanel.tsx:263 | A finite unsigned reading after the sign gives the signed reading. |
| JsNumbers.SignFacts | src/components/FilterPanel.tsx:263 | An optional `-` before a digit or `.` is the sign, and what follows is not "Infinity". |
| JsNumbers.SignedFinite | src/components/FilterPanel.tsx:263 | A finite unsigned reading after the sign is negated exactly for `-`. |
| JsNumbers.LiteralTrimmed | src/lib/recommendations/engine.ts:14 | Literal text has no surrounding white space. |
| JsNumbers.StringToNumberOfLiteral | src/lib/recommendations/engine.ts:14 | `Number` of a signed literal `[-]d.f[e[-]k]` is its value ±(d.f)·10^(±k). |
| JsNumbers.StringToNumberOfWhole | src/lib/recommendations/engine.ts:14 | Trimmed text read in full gives the value read. |
| JsNumbers.ParseFloatOfLiteral | src/components/GoalsModal.tsx:70 | `parseFloat` of a signed literal followed by text that does not continue it is the literal's value. |
| JsNumbers.LiteralOfNat | src/lib/utils/index.ts:22-24 | `String(n)` is a literal whose value is n. |
| JsNumbers.StringToNumberOfNat | src/lib/recommendations/engine.ts:14 | `Number(String(n)) == n`. |
| JsNumbers.ParseFloatOfNat | src/components/GoalsModal.tsx:70 | `parseFloat` of a whole number followed by any non-numeric tail is that number. |
| JsNumbers.DigitRunPrefix | src/lib/recommendations/engine.ts:14 | The digit run of digits followed by a non-digit stops at the tail. |
| JsNumbers.StringToNumberInfinity | src/lib/recommendations/engine.ts:14 | `Number` reads "Infinity" and "+Infinity" as +Infinity and "-Infinity" as −Infinity. |
| JsNumbers.InfinityText | src/lib/recommendations/engine.ts:14 | `Number("Infinity")` is +Infinity. |
| JsNumbers.PlusInfinityText | src/lib/recommendations/engine.ts:14 | `Number("+Infinity")` is +Infinity. |
| JsNumbers.MinusInfinityText | src/lib/recommendations/engine.ts:14 | `Number("-Infinity")` is −Infinity. |
| JsNumbers.InfinityWhole | src/lib/recommendations/engine.ts:14 | A sign and "Infinity" as the whole text give the matching infinity. |
| FilterPanel.KeepsIff | src/components/FilterPanel.tsx:240-290 | An item is kept exactly when it passes each check: search, calorie cap, protein minimum, flags and allergens. |
| FilterPanel.Keeps | src/components/FilterPanel.tsx:240-290 | The filter callback, check by check in source order. `KeepsIff` splits it into the five checks. |
| FilterPanel.FilterMenuItems | src/components/FilterPanel.tsx:231-291 | The result is an order-preserving subsequence. It holds exactly the items that pass the filter. |
| FilterPanel.FlagMatchIsCaseSensitive | src/components/FilterPanel.tsx:270-277 | An item flagged "Vegan" fails this filter's "vegan" but passes the engine's flag check. |
| FilterPanel.Without | src/components/FilterPanel.tsx:51 | Removes every copy of the item and keeps the others. |
| FilterPanel.Toggle | src/components/FilterPanel.tsx:49-52 | Flips membership of the item and keeps the rest. A new item is appended at the end. |
| FilterPanel.ToggleTwice | src/components/FilterPanel.tsx:49-52 | Toggling an absent item twice restores the list. |
| FilterPanel.ToggleArrayItem | src/components/FilterPanel.tsx:45-54 | Toggles the chosen list and leaves the other list and the other fields unchanged. |
| FilterPanel.HasActiveFilters | src/components/FilterPanel.tsx:66-71 | Some criterion is set: a query, a calorie cap, a protein minimum, a flag or an allergen. |
| FilterPanel.InactiveKeepsAll | src/components/FilterPanel.tsx:56-71 | A filter with nothing active keeps every item, and the cleared filter has nothing active. |
| MealPlan.Bump | src/app/page.tsx:129-131 | Only the matching entries gain the added quantity; every other entry is unchanged. |
| MealPlan.AddToPlan | src/app/page.tsx:125-143 | A present id bumps that entry. A new id appends one entry with the quantity and nutrition. The plan's ids become the old ids plus the item's. |
| MealPlan.AddKeepsUnique | src/app/page.tsx:125-143 | Adding keeps plan ids unique. |
| MealPlan.RemoveFromPlan | src/app/page.tsx:149-151 | An order-preserving subsequence without the id, keeping every other entry. |
| MealPlan.RemoveKeepsUnique | src/app/page.tsx:149-151 | Removing keeps plan ids unique. |
| MealPlan.UniqueTail | src/app/page.tsx:149-151 | A plan with unique ids has a tail with unique ids that avoids the head's id. |
| MealPlan.UniqueCons | src/app/page.tsx:149-151 | Prepending an entry whose id is absent keeps ids unique. |
| MealPlan.RemoveAbsent | src/app/page.tsx:149-151 | Removing an absent id changes nothing. |
| MealPlan.AddThenRemove | src/app/page.tsx:125-151 | Adding a new item and removing it restores the plan. |
| MealPlan.SelectMeal | src/app/page.tsx:102-108 | Keeps the current meal when the menu has it or has no meals. Otherwise it picks lunch, then dinner, then breakfast, then the first meal; the result is always on the menu. |
| MealPlan.SelectMealStable | src/app/page.tsx:102-108 | Selecting again keeps the selection. |
| PlanSummary.StepAdds | src/components/MealPlanSummary.tsx:121-130 | One reduce step adds the entry's per-serving values times its quantity. |
| PlanSummary.PlusAssoc | src/components/MealPlanSummary.tsx:120-132 | Adding totals is associative. |
| PlanSummary.ReduceIsSum | src/components/MealPlanSummary.tsx:120-132 | The reduction from any start is the start plus the reference sum. |
| PlanSummary.Totals | src/components/MealPlanSummary.tsx:120-132 | The `reduce` from zero totals. |
| PlanSummary.Sum | src/components/MealPlanSummary.tsx:120-132 | The reference sum: each entry adds its per-serving values times its quantity. |
| PlanSummary.TotalsAreSums | src/components/MealPlanSummary.tsx:120-132 | The totals are the sums of value × quantity, with missing nutrition contributing nothing. An empty plan gives zero. |
| PlanSummary.SumAppend | src/components/MealPlanSummary.tsx:120-132 | Sums are additive over concatenation. |
| PlanSummary.TotalsAfterAddingNew | src/app/page.tsx:133-141 | Adding a new item raises the totals by its values times the quantity. |
| PlanSummary.BumpAbsent | src/app/page.tsx:129-131 | Bumping an absent id changes nothing. |
| PlanSummary.TimesDistributes | src/components/MealPlanSummary.tsx:125-128 | Scaling distributes over adding quantities. |
| PlanSummary.PlusSwap | src/components/MealPlanSummary.tsx:120-132 | Adding totals can be reordered. |
| PlanSummary.SumBump | src/app/page.tsx:129-131 | Bumping an entry of a plan with unique ids raises the sum by its values times the added quantity. |
| PlanSummary.TotalsAfterAddingMore | src/app/page.tsx:125-132 | Adding more of an item already in the plan raises the totals by its values times the quantity. |
| PlanSummary.ShareAtLeastFull | src/components/MealPlanSummary.tsx:57 | The share reaches 100 % exactly when current reaches the goal. |
| PlanSummary.ProgressBar | src/components/MealPlanSummary.tsx:56-65 | The percentage is at most 100, is 100 exactly when the goal is reached, and below that is current/goal·100. `isOver` holds exactly when current > goal, and remaining = goal − current. With a truthy preview, the ghost bar is (current + preview)/goal·100 up to the goal and 100 from there on, and `wouldBeOver` holds exactly when current + preview > goal. Without one, it mirrors the bar and is not over. |
| PlanSummary.GhostNeverBelow | src/components/MealPlanSummary.tsx:62-64 | A positive preview never shows less than the bar. |
| GoalsModal.WithGoal | src/components/GoalsModal.tsx:71-77 | Sets one goal field and keeps the others. |
| GoalsModal.ValidateField | src/components/GoalsModal.tsx:49-67 | No error exactly in the field's inclusive range (calories 500–10000, protein 10–500, carbs 20–800, fat 10–400). NaN or ≤ 0 gives "Must be a positive number", and other values the range message. |
| GoalsModal.FieldErrors | src/components/GoalsModal.tsx:85-94 | Exactly the invalid fields carry their validation message. |
| GoalsModal.AllValidFields | src/components/GoalsModal.tsx:88-96 | No errors exactly when every field is in range. |
| GoalsModal.SubmitRejects | src/components/GoalsModal.tsx:84-99 | A submit is rejected exactly when some field is out of range, and then carries at least one error. |
| GoalsModal.SplitList | src/components/GoalsModal.tsx:101-105 | `splitList`: the non-empty trimmed pieces between commas. Every entry is non-empty, trimmed and comma-free. |
| GoalsModal.Submit | src/components/GoalsModal.tsx:84-117 | `handleSubmit`: rejected with the field errors when some goal is invalid, otherwise the form saved with each list read by `splitList`. |
| GoalsModal.SubmitSaves | src/components/GoalsModal.tsx:101-116 | A saved profile has every goal in range and the edited goals and chips. Each of the three lists is `splitList` of its own text box, so every entry is non-empty, trimmed and comma-free. |
| GoalsModal.HandleSubmit | src/components/GoalsModal.tsx:84-117 | The field-by-field loop collecting errors computes the reference submit outcome. |
| GoalsModal.OrZero | src/components/GoalsModal.tsx:70 | `\|\| 0` replaces NaN and keeps every other number. |
| GoalsModal.HandleChange | src/components/GoalsModal.tsx:69-82 | Stores `parseFloat(text) \|\| 0` in that field only, clears only that field's error, and changes nothing else. |
| GoalsModal.ChangeToWholeNumberInRange | src/components/GoalsModal.tsx:69-82 | Typing a whole number inside the field's range leaves the field valid. |
| GoalsModal.Open | src/components/GoalsModal.tsx:39-47 | Opening loads the profile and clears the errors. |
| GoalsModal.OpenThenSubmit | src/components/GoalsModal.tsx:39-116 | Opening and submitting untouched saves a valid, clean profile back unchanged. |
| GoalsModal.Reset | src/components/GoalsModal.tsx:119-126 | Restores the default goals, which are valid, clears the errors, and keeps the rest. |
| GoalsModal.ToggleDietary | src/components/GoalsModal.tsx:299-305 | Flips the option's membership in the dietary flags and changes nothing else. |
| GoalsModal.ToggleAllergen | src/components/GoalsModal.tsx:323-329 | Flips the option's membership in the allergens and changes nothing else. |
| Grouping.KeyOr | src/lib/scraper/api-client.ts:119 | `value \|\| "Other"`: never empty. A non-empty key is kept; otherwise "Other". |
| Grouping.TotalSizeSame | src/lib/scraper/api-client.ts:118-124 | Setting an unlisted key leaves the total size alone. |
| Grouping.TotalSizeGrow | src/lib/scraper/api-client.ts:123 | Pushing onto a listed group raises the total by one. |
| Grouping.TotalSizeNew | src/lib/scraper/api-client.ts:120-123 | Creating a new group of one raises the total by one. |
| Grouping.DedupSnoc | src/lib/scraper/api-client.ts:120-122 | A key is listed again only when new. |
| Grouping.TakeSnoc | src/lib/scraper/api-client.ts:118 | One more loop step sees one more item. |
| Grouping.FilterSnoc | src/lib/scraper/api-client.ts:123 | An item joins exactly its own key's group. |
| Grouping.FilterMissingKey | src/lib/scraper/api-client.ts:120 | A key not yet met has an empty group. |
| Grouping.GroupsOfSnoc | src/lib/scraper/api-client.ts:119-123 | The grouping of one more item is the old grouping with that item pushed onto its key. |
| Grouping.OrderOfSnoc | src/lib/scraper/api-client.ts:120-122 | The key order grows exactly when the key is new. |
| Grouping.SameKeys | src/lib/scraper/api-client.ts:113-127 | The groups' keys are the keys in the order list. |
| Grouping.TotalSizeSnoc | src/lib/scraper/api-client.ts:118-124 | Each push adds one to the total size. |
| Grouping.GroupsCoverItems | src/lib/scraper/api-client.ts:113-127 | The group sizes add up to the number of items. |
| Grouping.GroupsOfMembers | src/components/MealSection.tsx:54-64 | The keys are exactly the keys met, each once. Every item is in its key's group, and every group member has that key. |
| Grouping.GroupBy | src/lib/scraper/api-client.ts:113-127 | The loop builds the reference grouping. Keys are kept in first-occurrence order, and each group holds its items in input order. |
| Grouping.OrderOf | src/lib/scraper/api-client.ts:113-127 | The keys in the order they are first met. |
| Grouping.GroupsOf | src/lib/scraper/api-client.ts:113-127 | For each key met, the items with that key, in input order. |
| MealSection.StrLeqTotal | src/components/MealSection.tsx:66 | The default string order is total. |
| MealSection.StrLeqTrans | src/components/MealSection.tsx:66 | The default string order is transitive. |
| MealSection.SortedCons | src/components/MealSection.tsx:66 | Prepending a string no greater than the head keeps a list sorted. |
| MealSection.SortedAfterHead | src/components/MealSection.tsx:66 | The head stays first after inserting behind it. |
| MealSection.InsertString | src/components/MealSection.tsx:66 | Inserting into a sorted list keeps it sorted and adds exactly that string. |
| MealSection.SortStrings | src/components/MealSection.tsx:66 | `.sort()` returns a sorted permutation. |
| MealSection.AtMostOnce | src/components/MealSection.tsx:66 | A list without repetitions holds each string at most once. |
| MealSection.RepeatCounts | src/components/MealSection.tsx:66 | A repeated string occurs at least twice. |
| MealSection.PermutationNoDuplicates | src/components/MealSection.tsx:66 | A permutation of a repetition-free list is repetition-free. |
| MealSection.SameMembers | src/components/MealSection.tsx:66 | A permutation has the same members. |
| MealSection.CardsOf | src/components/MealSection.tsx:80-86 | One card per item, in order, marked in-plan exactly when its id is in the plan. |
| MealSection.CardsFor | src/components/MealSection.tsx:76-86 | The cards of each category, in category order. |
| MealSection.Render | src/components/MealSection.tsx:54-86 | The header counts every item. The categories are exactly the item categories ("Other" when missing), each once and sorted. Each group holds exactly its items in input order. Each card is in-plan exactly when its id is in the plan. |
| ApiClient.OrUndefined | src/lib/scraper/api-client.ts:139-141 | `value \|\| undefined`: an empty string becomes missing, anything else is kept. |
| ApiClient.TransformMenuItem | src/lib/scraper/api-client.ts:132-144 | The name is the formal name and empty text fields become missing. Traits are the trimmed, non-empty, comma-free pieces; missing or empty trait text gives []. |
| ApiClient.TraitsRoundTrip | src/lib/scraper/api-client.ts:133-135 | Clean traits joined by ", " split back into themselves. |
| ApiClient.MealsFrom | src/lib/scraper/api-client.ts:34-39 | One meal period per key, in key order: the key lower-cased and each row transformed, one to one. |
| ApiClient.ItemCountIsTotalSize | src/lib/scraper/api-client.ts:34-39 | The meal periods hold as many items as the groups. |
| ApiClient.FetchMenuFromApi | src/lib/scraper/api-client.ts:13-50 | An unknown hall is an error, and no rows give no menu. Otherwise the menu has one meal period per distinct meal name, with the date and the hall name. |
| ApiClient.MenuKeepsEveryRow | src/lib/scraper/api-client.ts:113-127 | The menu holds exactly as many items as there were rows. Each period holds its rows in input order, and period names are lower-case. |
| Utils.MealPeriodFromTime | src/lib/utils/index.ts:34-38 | Breakfast exactly before 10, lunch exactly from 10 to before 14, dinner exactly from 14. |
| Utils.Pad2 | src/lib/utils/index.ts:23-24 | `padStart(2, "0")`: two characters or more, zeros in front of a shorter string. |
| Utils.FourDigits | src/lib/utils/index.ts:22 | A year from 1000 to 9999 is written with four digits. |
| Utils.TwoDigits | src/lib/utils/index.ts:23-24 | A month or day from 1 to 99 becomes exactly two digits with its value. |
| Utils.FormatDateISO | src/lib/utils/index.ts:21-26 | `formatDateISO`: the year, then the 1-based month and the day padded to two digits, joined by dashes. |
| Utils.FormatDateISORoundTrip | src/lib/utils/index.ts:21-26 | The date is ten characters in the extended calendar-date format of ISO 8601 (section 5.2.1.1). It reads back as the year, the 1-based month and the day. |
| Utils.SkipRun | src/lib/utils/index.ts:82 | Drops the leading run of characters outside the slug alphabet, keeping every letter and digit. |
| Utils.Collapse | src/lib/utils/index.ts:82 | The result uses only a–z, 0–9 and single dashes, and keeps the input's letters and digits in order. It is empty exactly when the input is, and starts with a dash exactly when the input starts outside the alphabet. |
| Utils.DropLeadingDash | src/lib/utils/index.ts:83 | Drops a leading dash exactly when there is one, keeping every letter and digit. |
| Utils.DropTrailingDash | src/lib/utils/index.ts:83 | Drops a trailing dash exactly when there is one, keeping every letter and digit. |
| Utils.StripDashes | src/lib/utils/index.ts:83 | `replace(/(^-\|-$)/g, "")`: the input with at most one dash removed from each end, keeping every letter and digit. |
| Utils.StripSlug | src/lib/utils/index.ts:82-83 | Stripping the end dashes of collapsed text gives a slug. |
| Utils.Slugify | src/lib/utils/index.ts:79-84 | The output is a slug (a–z, 0–9 and single dashes, with no dash at either end) and keeps the lower-cased input's letters and digits in order. |
| Utils.CollapseFixed | src/lib/utils/index.ts:82 | Text already in the alphabet without double dashes passes unchanged. |
| Utils.SkipRunOver | src/lib/utils/index.ts:82 | Skipping a run with no letter or digit stops exactly at the letter or digit after it. |
| Utils.SkipRunAppend | src/lib/utils/index.ts:82 | Skipping the leading run of text that ends in a letter or digit stays inside that text. |
| Utils.CollapseRun | src/lib/utils/index.ts:82 | Where the dashes go: a maximal non-empty run outside the alphabet, between text ending in a letter or digit (or nothing) and text starting with one (or nothing), becomes exactly one dash: Collapse(u + run + v) = Collapse(u) + "-" + Collapse(v). |
| Utils.SlugifyJoin | src/lib/utils/index.ts:79-84 | Two slugs separated by a run with no letter or digit even after lower-casing come out joined by exactly one dash, so "hello world" gives "hello-world". |
| Utils.LowerJoin | src/lib/utils/index.ts:81 | Lower-casing a slug, a run and a slug changes only the run. |
| Utils.StripJoined | src/lib/utils/index.ts:83 | Two slugs joined by a dash have no dash at either end, so the strip keeps them whole. |
| Utils.SlugFixed | src/lib/utils/index.ts:79-84 | A slug is its own slug. |
| Utils.SlugifyIdempotent | src/lib/utils/index.ts:79-84 | `slugify` is idempotent. |
| Text.Lower | src/lib/recommendations/engine.ts:61 | `toLowerCase` keeps the length and leaves no upper-case letter. |
| Text.LowerOfLower | src/lib/recommendations/engine.ts:61 | Lower-case text is its own lower case. |
| Text.TrimStart | src/app/api/recommend/route.ts:19 | Drops exactly the leading white space. |
| Text.TrimEnd | src/app/api/recommend/route.ts:19 | Drops exactly the trailing white space. |
| Text.OccursAtLacks | src/app/api/recommend/route.ts:19 | A piece of a text free of a character is free of it too. |
| Text.Trim | src/app/api/recommend/route.ts:19 | `trim`: the result is trimmed, and the input is white space, then the result, then white space. |
| Text.TrimTrimmed | src/app/api/recommend/route.ts:19 | Trimmed text is its own trim. |
| Text.LowerKeepsTrimmed | src/app/api/recommend/route.ts:19 | Lower-casing keeps text trimmed. |
| Text.TrimLeadingSpace | src/app/api/recommend/route.ts:19 | A leading space does not change the trim. |
| Text.ContainsIff | src/lib/recommendations/engine.ts:62 | `includes` holds exactly when the term occurs at some position. |
| Text.JoinConsFirst | src/components/GoalsModal.tsx:43-45 | Joining with a longer first piece prefixes the join. |
| Text.Split | src/components/GoalsModal.tsx:103 | `split(",")` gives at least one piece, none containing the separator, and joining them back gives the input. |
| Text.SplitNoSeparator | src/components/GoalsModal.tsx:103 | Text without the separator is one piece. |
| Text.SplitAfterPiece | src/components/GoalsModal.tsx:103 | A piece and a separator split off first. |
| Text.SplitJoin | src/components/GoalsModal.tsx:103 | Splitting a join of separator-free pieces gives the pieces. |
| Text.TrimmedPiecesShape | src/components/GoalsModal.tsx:103-104 | Trimmed pieces are trimmed and separator-free. |
| Text.SplitTrimmed | src/components/GoalsModal.tsx:101-105 | `splitList`: the entries are non-empty, trimmed and separator-free. |
| TextRoundTrip.TrimmedPiecesAfterPiece | src/components/GoalsModal.tsx:101-105 | The first piece is split off and trimmed. |
| TextRoundTrip.TrimmedPiecesLeadingSpace | src/components/GoalsModal.tsx:101-105 | A leading space does not change the trimmed pieces. |
| TextRoundTrip.SplitCons | src/components/GoalsModal.tsx:103 | A non-separator character joins the first piece. |
| TextRoundTrip.SplitTrimmedEmpty | src/components/GoalsModal.tsx:101-105 | Empty text gives no entries. |
| TextRoundTrip.SplitTrimmedSingle | src/components/GoalsModal.tsx:101-105 | A clean entry gives itself. |
| TextRoundTrip.SplitTrimmedCons | src/components/GoalsModal.tsx:101-105 | A clean entry and ", " split off first. |
| TextRoundTrip.SplitTrimmedJoin | src/components/GoalsModal.tsx:43-45 | Clean entries joined with ", " (as the dialog shows them) split back to themselves. |
| Seqs.Filter | src/components/FilterPanel.tsx:240 | `filter` gives an order-preserving subsequence: exactly the qualifying elements. |
| Seqs.FilterAppend | src/components/FilterPanel.tsx:240 | Filtering distributes over concatenation. |
| Seqs.FilterAll | src/components/FilterPanel.tsx:240 | When every element qualifies, the list is unchanged. |
| Seqs.FirstIndex | src/app/api/recommend/route.ts:16-22 | The first position holding a member. |
| Seqs.FirstIndexInit | src/app/api/recommend/route.ts:16-22 | Dropping the last element keeps the first positions of the others. |
| Seqs.FirstIndexPrefix | src/app/api/recommend/route.ts:16-22 | A prefix containing a member has the same first position for it. |
| Seqs.Dedup | src/app/api/recommend/route.ts:16-22 | `Array.from(new Set(...))`: no repeats, the same members, in first-occurrence order. |
| Seqs.Map | src/lib/recommendations/engine.ts:83 | `map` keeps the length and applies the function element by element. |
| Seqs.MapAppend | src/lib/recommendations/engine.ts:83 | Mapping distributes over concatenation. |
| Seqs.MapCons | src/lib/recommendations/engine.ts:83 | Mapping a list with a head maps the head first. |
| Seqs.Take | src/lib/recommendations/engine.ts:99 | `slice(0, n)`: the first min(length, n) elements. |
| Seqs.NoDuplicatesSnoc | src/app/api/recommend/route.ts:16-22 | Appending a new element keeps a list repetition-free. |

## Left out

- The database, the session lookup, the language-model calls and the dining service's HTTP
  requests (`fetchDiningOption`, `fetchSchedule`) are not modelled. Their answers are
  parameters: stored profile, recent rows and menu; user id; parsed reply; menu rows.
- The prompt text built for the language model (`USER_PROMPT.replace`, the numbered dish list)
  and console logging are not modelled.
- Browser state and rendering are not modelled: JSX, `localStorage`, hover handlers and display
  rounding.
- `formatDate`, `getTodayISO`, `formatNutrient`, `calculateDV`, `debounce` and `cn` are not
  modelled. They depend on the host clock, locale or timers, or only format for display.
- Floating-point rounding is not modelled: numbers are exact reals. `Math.round` is modelled
  exactly.
- The meal plan and plan summary read the decimal nutrition text (`parseFloat(protein || "0")`)
  as an already-read `Option<real>`. Unreadable text, which gives NaN in the app, is not
  modelled there. The menu filter and the goals dialog do model `parseFloat`.
- `Number` and `parseFloat` are defined for decimal literals and "Infinity". Hexadecimal, octal
  and binary literals, and numeric separators, read as NaN in the model.
- Overflow of `Number` and `parseFloat` is not modelled. `Number("1e400")` is Infinity in
  JavaScript, so `toNumber` gives null there, but the model reads it as the finite value
  10^400. Underflow to 0 is not modelled either.
- Inherited object keys are not modelled. `groupByMealPeriod` and the category grouping of the
  meal section test `groups[key]` on a plain object, so a meal or category named like an
  inherited property (for example "constructor") finds a function there and the `.push`
  throws. The model's maps have no inherited keys, so `Grouping.GroupBy` and
  `MealSection.Render` group such items like any other.
- Lower-casing is ASCII only, and the default string sort compares characters, not UTF-16 code
  units.
- Object-key order treats every key as a string key. JavaScript lists integer-like keys first,
  in numeric order; the model does not.
- The recommend route reads body goals (`body.dailyCalories` and the rest) only when they are
  finite numbers. Other JSON values, such as strings or NaN, are treated as missing. The route
  passes them to the engine unchecked.
- The recommend route's 401 path does not exist: a missing session means no profile and no
  recent items, which the model covers.
- PlanSummary.ProgressBar: requires a positive goal. The component divides by the goal, so a zero
  goal gives Infinity or NaN there; goals come from the goals dialog, which accepts only
  positive ranges.
- Utils.FormatDateISORoundTrip: the round trip is stated for four-digit years only. The
  function itself handles every year, writing `String(year)` as JavaScript does.
- NutritionEstimates.BatchOneEntryPerDish: states the entry count only. The order and names of
  entries follow from `NutritionEstimates.SingleBatch` and `NutritionEstimates.GenerateBatch`.
- EngineCombos.Combos: the cap on the number of combinations is stated as at most 2006: the
  `> 2000` check plus at most six pending pushes. It is not the exact count. Completeness
  (`EngineCombos.CombosComplete`) holds whenever the cap is not reached, which is always the
  case with at most ten candidates. Which combinations a cut-short enumeration still lists is
  not characterised beyond their shape and distinctness.

## Findings

| source | as written | input that shows it | evidently intended | confidence | as-written member | corrected member |
|---|---|---|---|---|---|---|
| src/lib/recommendations/engine.ts:216 | `buildCombos` stops descending only when `current.length === maxItems`. `normalizeConstraints` clamps `maxItems` into [1, 6] but does not round it. | `recommendFromMenu` called directly with `maxItems` 5.5 and seven surviving candidates records a combination of all seven. That exceeds both `maxItems` and the hard limit of 6. | Stop once `current.length >= maxItems`, so no combination is longer than `maxItems` rounded up, and none exceeds the hard limit of 6. | not executed | EngineCombos.ExactRuleOvershoots | EngineCombos.Combos |

The recommend endpoint always passes a whole-number `maxItems` (`RecommendRoute.RouteMaxItemsWhole`),
so requests through it are not affected. There, both stop rules record the same combinations
(`EngineCombos.CombosAsWritten`).
