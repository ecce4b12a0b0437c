# Meal planner and to-do list — a verified Dafny model

The repository is a pair of browser widgets written in JavaScript:

- **The weekly meal planner** (`MealPlanner` in `meal-script.js`) has four parts:
  - the ingredient list the user types in;
  - a search of a built-in catalog of Korean dishes for meals that use those ingredients;
  - a random fallback for when nothing matches;
  - a 7-day × 3-meal plan keyed by `"<mealType>-<day>"`, saved in browser storage.
- **The to-do list** (`TodoApp` in `todo-script.js`) has three parts:
  - a newest-first list of to-dos that can be added, toggled and deleted, and cleared all at once or only their completed ones;
  - a view filter (all / active / completed);
  - the three counters shown under the list.

This project models the state and logic of both widgets without their DOM.

The project has these modules:

| file | module | what it holds |
|---|---|---|
| `wrappers.dfy` | `Wrappers` | `Option` |
| `seqs.dfy` | `Seqs` | `Array.prototype.filter` as `Filter`, subsequences, `slice(0, n)` as `Take`, and the stable descending sort that `Array.prototype.sort` performs with a `b.key - a.key` comparator |
| `text.dfy` | `Text` | `trim` (the ECMAScript whitespace and line-terminator set), ASCII `toLowerCase`, and `includes` |
| `catalog.dfy` | `Catalog` | `mealDatabase` with every meal, description and ingredient exactly as the source lists them |
| `suggestions.dfy` | `Suggestions` | the ingredient match test, `findMealsByIngredients` and `getRandomMeals` |
| `planner.dfy` | `Planner` | the `MealPlanner` class: ingredient list, plan map, the picked slot and its store |
| `todos.dfy` | `Todos` | the `TodoApp` class: to-do list, current filter and its store |

Both widgets change their fields in place, so they are classes:
- `MealPlanner` and `TodoApp`, each with `modifies` clauses;
- `PlanStore` and `TodoStore`, the `localStorage` records, which the save methods overwrite.

Each method is proved against a pure specification function, and the lemmas are proved about those functions.

Where the source runs loops, the model runs them too, with invariants:
- `getRandomMeals` and `findMealsByIngredients` walk `Object.entries(mealDatabase)` in nested loops.
- `generateRandomMeals` walks the days and meal types in nested `forEach` loops.

Inputs from outside the program are parameters:
- **`confirm(...)`** is a `confirmed: bool` parameter.
- **`Date.now()` and `toLocaleString('ko-KR')`** are `id` and `createdAt` parameters.
- **The random comparator `() => 0.5 - Math.random()`** is an `order` parameter. It is any permutation of the catalog positions (`IsShuffle`), because all the sort can do is rearrange the catalog.
- **`generateRandomMeals`** calls `getRandomMeals(1)` afresh for each slot, so it takes one permutation per slot.

Two facts about the code shape the model:
- The catalog holds 28 meals: 8 breakfasts, 10 lunches and 10 dinners. `Catalog.CatalogSizeIs28` proves the count.
- Browser storage is read with `JSON.parse` and no `try`, so no path turns malformed data into an empty result. Storage is a snapshot that the store class either holds or does not hold.

## Model

| member | source | states |
|---|---|---|
| Text.TrimEmptyIff | meal-script.js:31-33 | the trimmed input is empty exactly when every character of the input is ECMAScript whitespace, so whitespace-only input is what `if (!ingredient)` rejects |
| Text.TrimIdempotent | meal-script.js:31 | trimming an already trimmed string changes nothing, so a stored ingredient is its own trimmed form |
| Text.Contains | meal-script.js:77-78 | `includes` holds exactly when some position of the haystack starts a copy of the needle |
| Text.ToLower | meal-script.js:77-78 | lower-casing keeps the length, leaves no ASCII capital, turns each capital into its small letter and keeps every other character |
| Text.ToLowerIdempotent | meal-script.js:77-78 | lower-casing an already lower-cased string changes nothing |
| Text.ContainsSelf | meal-script.js:77-78 | every string contains itself and the empty string |
| Seqs.Filter | meal-script.js:45 | `filter` never lengthens a list and keeps only elements of the list that pass the test |
| Seqs.FilterIsSubsequence | meal-script.js:45 | the result of `filter` keeps the original relative order |
| Seqs.FilterMultiplicity | meal-script.js:45 | `filter` keeps every copy of an element that passes and no copy of one that fails |
| Seqs.FilterNoDuplicates | meal-script.js:45 | filtering a duplicate-free list gives a duplicate-free list |
| Seqs.SortDescCorrect | meal-script.js:99 | the sort by `b.matchCount - a.matchCount` gives a non-increasing list with the same elements, and elements with equal keys stay in their original order (stability) |
| Catalog.AllEntries | meal-script.js:106-109 | the flattened catalog has one entry per meal: 28 |
| Catalog.CatalogSizeIs28 | meal-script.js:253-288 | `mealDatabase` holds 8 + 10 + 10 meals |
| Suggestions.MatchSymmetric | meal-script.js:76-78 | the match test gives the same answer with the two ingredients swapped |
| Suggestions.MatchMeansSubstring | meal-script.js:76-78 | two ingredients match exactly when one lower-cased string occurs as a substring of the other |
| Suggestions.ExactIngredientMatches | meal-script.js:75-80 | an input naming one of a meal's ingredients exactly is always among its matched ingredients |
| Suggestions.UsesIffMatched | meal-script.js:75-82 | a meal's `matchCount` is positive exactly when some input ingredient matches one of its ingredients |
| Suggestions.CandidatesFacts | meal-script.js:73-96 | each collected hit has `matchCount >= 1`, `matchCount == matchedIngredients.length`, a `matchedIngredients` that is a subsequence of the input, and comes from the catalog; a catalog meal yields a hit exactly when it uses some input ingredient |
| Suggestions.HitOfEntry | meal-script.js:82-94 | a catalog entry gets a hit exactly when it is in the catalog and its `matchCount` is positive |
| Suggestions.CollectMatches | meal-script.js:73-96 | the nested loop pushes exactly one hit per matching meal, in catalog iteration order |
| Suggestions.CollectCategory | meal-script.js:74-95 | the inner loop over one category's meals appends exactly their hits, in order, to those already collected |
| Suggestions.CollectEntries | meal-script.js:106-109 | the nested loop collects every `{...meal, category}` in catalog iteration order |
| Suggestions.GetRandomMeals | meal-script.js:105-113 | `getRandomMeals(count)` returns min(count, 28) catalog entries, each from its own shuffled catalog position |
| Suggestions.RandomMealsFacts | meal-script.js:111-112 | the random pick has at most `count` meals, all from the catalog, from pairwise different catalog positions |
| Suggestions.FindMealsByIngredients | meal-script.js:65-103 | with no ingredients, or no matching meal, six random meals; otherwise the hits stably sorted by `matchCount` (highest first) and cut to eight, which are 1 to 8 well-formed hits in non-increasing `matchCount` order |
| Suggestions.TopHitsFacts | meal-script.js:99-102 | when some meal matches, the kept hits number 1 to 8, are sorted by `matchCount`, and are all well formed |
| Suggestions.SearchKeepsBest | meal-script.js:99-102 | no hit cut by `slice(0, 8)` has a higher `matchCount` than a kept one, and for each count the kept hits are the first ones with that count in catalog order (a prefix) |
| Suggestions.TakeKeyClass | meal-script.js:102 | cutting a list keeps, for each `matchCount`, a prefix of the hits with that count |
| Planner.WithIngredient | meal-script.js:29-42 | blank or already-listed input leaves the list unchanged; otherwise the trimmed input is appended at the end; a duplicate-free list stays duplicate-free |
| Planner.WithoutIngredient | meal-script.js:44-48 | the list after `removeIngredient` holds exactly the old ingredients other than the removed one, in their old order, and stays duplicate-free |
| Planner.IngredientOpsPreserve | meal-script.js:29-48 | adding and removing keep the list duplicate-free with every entry non-empty and trimmed |
| Planner.RemoveUndoesAdd | meal-script.js:29-48 | removing an ingredient that was just added, and was new, restores the old list |
| Planner.SlotKeyInjective | meal-script.js:139 | the key `${mealType}-${day}` determines its meal type and day when the meal type has no '-' |
| Planner.SlotsDistinct | meal-script.js:150-157 | the 21 slot keys are pairwise different |
| Planner.SlotSeq | meal-script.js:150-157 | the slots in filling order are the 21 keys, with no duplicates |
| Planner.SlotAtPosition | meal-script.js:153-157 | the slot of meal type t on day d is the (3d + t)-th one filled |
| Planner.SelectKeepsSlotKeys | meal-script.js:139-140 | setting the slot of a listed meal type and day keeps every plan key among the 21 valid ones |
| Planner.MealPlanner.constructor | meal-script.js:2-8 | a new planner has no ingredients, the saved plan (or an empty one) and no picked slot |
| Planner.MealPlanner.AddIngredient | meal-script.js:29-42 | `addIngredient` sets the list to `WithIngredient` of the old list and keeps it well formed |
| Planner.MealPlanner.RemoveIngredient | meal-script.js:44-48 | `removeIngredient` sets the list to `WithoutIngredient` of the old list and keeps it well formed |
| Planner.MealPlanner.ChangeMeal | meal-script.js:292-294 | `changeMeal` records the picked meal type and day |
| Planner.MealPlanner.SelectMeal | meal-script.js:133-147 | with no picked meal type or day nothing changes; otherwise only the key `type-day` is set to the meal name and the pick is cleared |
| Planner.MealPlanner.GenerateRandomMeals | meal-script.js:149-165 | afterwards all 21 slot keys are set, each to the first meal of its own shuffle; other keys keep their meals |
| Planner.MealPlanner.FillDay | meal-script.js:153-160 | one day's inner loop fills that day's three slots in meal-type order |
| Planner.MealPlanner.ClearAll | meal-script.js:167-176 | once confirmed, the ingredient list and the plan are empty; otherwise nothing changes |
| Planner.MealPlanner.SaveMealPlan | meal-script.js:200-203 | the stored record becomes the current plan |
| Planner.MealPlanner.LoadMealPlan | meal-script.js:205-209 | the plan becomes the stored one, or empty when nothing is stored, and is returned |
| Planner.MealPlanner.SaveAndReopen | meal-script.js:2-8 | after `saveMealPlan`, a new planner on the same storage starts with exactly the saved plan |
| Todos.FirstIndex | todo-script.js:58 | `find` gives the first position holding the id, or nothing when no to-do has it |
| Todos.Toggled | todo-script.js:57-65 | toggling flips `completed` on the first to-do with the id and keeps every other to-do and the order |
| Todos.ToggleTwice | todo-script.js:57-60 | toggling the same id twice restores the list |
| Todos.ToggleMissing | todo-script.js:58-59 | toggling an absent id changes nothing |
| Todos.WithoutId | todo-script.js:69 | after deletion no to-do has the id, the order is kept, and every to-do with another id keeps all its copies |
| Todos.ActiveExactly | todo-script.js:92 | the active view holds exactly the incomplete to-dos, every copy, in list order |
| Todos.CompletedExactly | todo-script.js:94 | the completed view holds exactly the completed to-dos, every copy, in list order |
| Todos.ActivePlusCompleted | todo-script.js:146-148 | the active and completed to-dos together number all of them |
| Todos.FilteredTodos | todo-script.js:89-98 | "active" gives exactly the incomplete to-dos and "completed" exactly the completed ones, in list order; any other filter gives the whole list |
| Todos.ViewsPartition | todo-script.js:89-98 | the "active" and "completed" views split the list between them |
| Todos.TodoStats | todo-script.js:145-153 | `total` is the list length, `completed` the number of completed to-dos, and `active = total - completed` is the number of incomplete ones |
| Todos.AddCountsActive | todo-script.js:42-53 | a newly added to-do raises `total` and `active` by one and leaves `completed` as it was |
| Todos.ClearedHasNoCompleted | todo-script.js:163-167 | after clearing the completed to-dos, `completed` is 0 and `active` is unchanged |
| Todos.TodoApp.constructor | todo-script.js:2-6 | a new app holds the saved list (or an empty one) and the filter "all" |
| Todos.TodoApp.SaveTodos | todo-script.js:237-239 | the stored record becomes the current list |
| Todos.TodoApp.AddTodo | todo-script.js:33-55 | whitespace-only input changes nothing; otherwise one undone to-do with the trimmed text goes in front, the old ones follow in order, and the list is saved |
| Todos.TodoApp.ToggleTodo | todo-script.js:57-65 | the list becomes `Toggled` of the old one, and it is saved exactly when the id was found |
| Todos.TodoApp.DeleteTodo | todo-script.js:67-75 | once confirmed, the to-dos with the id go, the others stay in order, and the list is saved; otherwise nothing changes |
| Todos.TodoApp.SetFilter | todo-script.js:77-78 | the current filter becomes the given one |
| Todos.TodoApp.GetFilteredTodos | todo-script.js:89-98 | the shown list is always an ordered sublist of the to-dos |
| Todos.TodoApp.ClearCompleted | todo-script.js:155-170 | with no completed to-do, or without confirmation, nothing changes; otherwise exactly the incomplete to-dos remain in order and the list is saved |
| Todos.TodoApp.ClearAll | todo-script.js:172-185 | on an empty list, or without confirmation, nothing changes; otherwise the list becomes empty and is saved |
| Todos.TodoApp.SaveAndReopen | todo-script.js:2-6 | after `saveTodos`, a new app on the same storage starts with exactly the saved list and the filter "all" |

## Left out

- DOM rendering and event wiring: `bindEvents`, `init`, the `render*` methods, the counters' text, the filter buttons' classes, the visual feedback in `changeMeal`, clearing the input box, and `escapeHtml`. These only produce output.
- `showMessage` and its timers. They are cosmetic.
- `searchMeals` only passes the ingredient list to `findMealsByIngredients` and renders the result, so it has no member of its own. The same holds for the `getRandomMeals(6)` call in `changeMeal` that only feeds the renderer.
- `getDayName` and `getMealTypeName` are display labels.
- `JSON.stringify` and `JSON.parse`: a save stores the value itself, so a round trip is exact. This assumes the stored values are plain strings, numbers and booleans, which is what JSON preserves.
- Storage that holds unparsable text is not modelled. The source would throw there.
- A saved empty string, which the source's truthiness test would read as "nothing saved", is not modelled. `JSON.stringify` never writes one.
- Suggestions.GetRandomMeals: the `0.5 - Math.random()` comparator is neither deterministic nor uniform. The model states what holds for every possible outcome: the result is some rearrangement of the catalog, cut to `count`. It says nothing about the distribution.
- Planner.MealPlanner.GenerateRandomMeals: the model proves which meal each slot gets from the given shuffles and that all 21 keys are set. It says nothing about how likely each meal is. The guard `randomMeals.length > 0` always holds, since the catalog is not empty.
- Text.ToLower: only ASCII letters are lower-cased. Unicode case mapping is not modelled. The catalog's Korean text has no case.
- Todos.TodoApp.ToggleTodo: the source flips the flag on a shared object. The model rebuilds the list value. Any alias of the old object or array, such as an earlier `getFilteredTodos()` result that returned `this.todos` itself, is not modelled.
- Ids come from `Date.now()`. The model takes each id as a parameter and does not assume ids are unique. With duplicate ids, toggling affects only the first to-do with that id, while deleting removes them all, exactly as the source does.
- The timestamp text from `toLocaleString('ko-KR')` is a parameter.
- `selectMeal`'s `category` argument is unused by the source, and the model ignores it too.
- `loadMealPlan` runs twice at construction (in the constructor and again in `init`). The second run reloads the same record, so the model does it once.
