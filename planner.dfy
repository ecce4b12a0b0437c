/** The meal planner's state (`MealPlanner` without its DOM): the ingredient
    filter list, the weekly plan keyed by `"<mealType>-<day>"`, the slot the
    user picked, and the saved copy of the plan. */
module Planner {
  import opened Wrappers
  import opened Seqs
  import opened Text
  import opened Catalog
  import opened Suggestions

  // ---------------------------------------------------------------------
  // The ingredient filter list

  /** The list after `addIngredient` with the input box holding `input`: the
      trimmed text is appended unless it is empty or already listed. */
  function WithIngredient(ingredients: seq<string>, input: string): (r: seq<string>)
    ensures |ingredients| <= |r| <= |ingredients| + 1 && r[..|ingredients|] == ingredients
    ensures forall x :: x in r ==> x in ingredients || x == Trim(input)
    ensures Trim(input) != [] ==> Trim(input) in r
    ensures Trim(input) == [] || Trim(input) in ingredients ==> r == ingredients
    ensures Trim(input) != [] && Trim(input) !in ingredients ==> r == ingredients + [Trim(input)]
    ensures NoDuplicates(ingredients) ==> NoDuplicates(r)
  {
    var ingredient := Trim(input);
    if ingredient == [] || ingredient in ingredients then ingredients
    else ingredients + [ingredient]
  }

  /** The list after `removeIngredient(ingredient)`: every copy of it goes,
      the rest stay in their order. */
  function WithoutIngredient(ingredients: seq<string>, ingredient: string): (r: seq<string>)
    ensures forall x :: x in r <==> x in ingredients && x != ingredient
    ensures IsSubsequence(r, ingredients)
    ensures NoDuplicates(ingredients) ==> NoDuplicates(r)
  {
    WithoutFacts(ingredients, ingredient);
    Filter(ingredients, y => y != ingredient)
  }

  lemma WithoutFacts(ingredients: seq<string>, ingredient: string)
    ensures forall x :: x in Filter(ingredients, y => y != ingredient) <==> x in ingredients && x != ingredient
    ensures IsSubsequence(Filter(ingredients, y => y != ingredient), ingredients)
    ensures NoDuplicates(ingredients) ==> NoDuplicates(Filter(ingredients, y => y != ingredient))
  {
    forall x | x in ingredients && x != ingredient
      ensures x in Filter(ingredients, y => y != ingredient)
    {
      FilterMultiplicity(ingredients, y => y != ingredient, x);
    }
    FilterIsSubsequence(ingredients, y => y != ingredient);
    if NoDuplicates(ingredients) {
      FilterNoDuplicates(ingredients, y => y != ingredient);
    }
  }

  /** Every listed ingredient is non-empty, already trimmed, and listed once. */
  predicate WellFormedIngredients(ingredients: seq<string>)
  {
    NoDuplicates(ingredients) &&
    forall i :: 0 <= i < |ingredients| ==> ingredients[i] != [] && Trim(ingredients[i]) == ingredients[i]
  }

  /** Adding and removing keep the ingredient list well formed. */
  lemma IngredientOpsPreserve(ingredients: seq<string>, input: string, ingredient: string)
    requires WellFormedIngredients(ingredients)
    ensures WellFormedIngredients(WithIngredient(ingredients, input))
    ensures WellFormedIngredients(WithoutIngredient(ingredients, ingredient))
  {
    TrimIdempotent(input);
    var r := WithIngredient(ingredients, input);
    forall i | 0 <= i < |r| ensures r[i] != [] && Trim(r[i]) == r[i] {
      if i >= |ingredients| {
        assert r[i] == Trim(input);
      }
    }
    var w := WithoutIngredient(ingredients, ingredient);
    forall i | 0 <= i < |w| ensures w[i] != [] && Trim(w[i]) == w[i] {
      assert w[i] in ingredients;
    }
  }

  /** Removing an ingredient that was just added, and was not listed
      before, gives back the old list. */
  lemma RemoveUndoesAdd(ingredients: seq<string>, input: string)
    requires Trim(input) !in ingredients
    ensures WithoutIngredient(WithIngredient(ingredients, input), Trim(input)) == ingredients
  {
    var x := Trim(input);
    FilterAll(ingredients, y => y != x);
    if x != [] {
      FilterAppend(ingredients, [x], y => y != x);
    }
  }

  // ---------------------------------------------------------------------
  // Plan slots

  const Days: seq<string> := ["monday", "tuesday", "wednesday", "thursday", "friday", "saturday", "sunday"]
  const MealTypes: seq<string> := ["breakfast", "lunch", "dinner"]

  /** Number of plan slots: three meals on seven days. */
  const SlotCount: nat := 21

  /** The plan key `${mealType}-${day}`. */
  function SlotKey(mealType: string, day: string): string
  {
    mealType + "-" + day
  }

  /** The j-th slot in the order `generateRandomMeals` fills them: day by
      day, breakfast, lunch, dinner within a day. */
  function SlotAt(j: nat): string
    requires j < SlotCount
  {
    SlotKey(MealTypes[j % 3], Days[j / 3])
  }

  /** The 21 valid plan keys. */
  function SlotKeys(): set<string>
  {
    set j | 0 <= j < SlotCount :: SlotAt(j)
  }

  /** The position of the first '-' in `s`, or `|s|` when there is none. */
  function FirstDash(s: string): (i: nat)
    ensures i <= |s|
  {
    if s == [] || s[0] == '-' then 0 else 1 + FirstDash(s[1..])
  }

  lemma {:induction false} FirstDashOfKey(t: string, d: string)
    requires '-' !in t
    ensures FirstDash(SlotKey(t, d)) == |t|
    decreases |t|
  {
    if t != [] {
      assert SlotKey(t, d)[1..] == SlotKey(t[1..], d);
      FirstDashOfKey(t[1..], d);
    }
  }

  /** A key splits uniquely at its first '-' when the meal type has none. */
  lemma SlotKeyInjective(t1: string, d1: string, t2: string, d2: string)
    requires '-' !in t1 && '-' !in t2
    requires SlotKey(t1, d1) == SlotKey(t2, d2)
    ensures t1 == t2 && d1 == d2
  {
    var k := SlotKey(t1, d1);
    FirstDashOfKey(t1, d1);
    FirstDashOfKey(t2, d2);
    assert t1 == k[..|t1|] == t2;
    assert d1 == k[|t1| + 1..] == d2;
  }

  /** The 21 slots have 21 different keys, so filling one never overwrites
      another. */
  lemma SlotsDistinct(i: nat, j: nat)
    requires i < SlotCount && j < SlotCount && i != j
    ensures SlotAt(i) != SlotAt(j)
  {
    assert NoDuplicates(MealTypes) && NoDuplicates(Days);
    assert forall t :: 0 <= t < 3 ==> '-' !in MealTypes[t];
    if SlotAt(i) == SlotAt(j) {
      SlotKeyInjective(MealTypes[i % 3], Days[i / 3], MealTypes[j % 3], Days[j / 3]);
      assert false;
    }
  }

  lemma AllSlotsDistinct()
    ensures forall i, j :: 0 <= i < SlotCount && 0 <= j < SlotCount && i != j ==> SlotAt(i) != SlotAt(j)
  {
    forall i, j | 0 <= i < SlotCount && 0 <= j < SlotCount && i != j ensures SlotAt(i) != SlotAt(j) {
      SlotsDistinct(i, j);
    }
  }

  /** The slot of a meal type and a day, by position. */
  lemma SlotAtPosition(t: nat, d: nat)
    requires t < 3 && d < 7
    ensures 3 * d + t < SlotCount && SlotAt(3 * d + t) == SlotKey(MealTypes[t], Days[d])
  {
    assert (3 * d + t) % 3 == t && (3 * d + t) / 3 == d;
  }

  /** Selecting a meal for a slot picked from the 21 valid ones keeps a plan
      whose keys are all valid slot keys. */
  lemma SelectKeepsSlotKeys(plan: map<string, string>, ti: nat, di: nat, name: string)
    requires plan.Keys <= SlotKeys() && ti < |MealTypes| && di < |Days|
    ensures plan[SlotKey(MealTypes[ti], Days[di]) := name].Keys <= SlotKeys()
  {
    SlotAtPosition(ti, di);
  }

  /** What one random slot choice draws on: one shuffle of the catalog per
      slot, as `getRandomMeals(1)` is called afresh for each. */
  predicate ValidWeekShuffles(orders: seq<seq<nat>>)
  {
    |orders| == SlotCount && forall j :: 0 <= j < |orders| ==> IsShuffle(orders[j])
  }

  /** The 21 slot keys in filling order. */
  function SlotSeq(): (r: seq<string>)
    ensures |r| == SlotCount && forall j :: 0 <= j < SlotCount ==> r[j] == SlotAt(j)
    ensures NoDuplicates(r)
  {
    AllSlotsDistinct();
    seq(SlotCount, j requires 0 <= j < SlotCount => SlotAt(j))
  }

  lemma SlotSeqKeys()
    ensures (set k | k in SlotSeq()) == SlotKeys()
  {
    forall k ensures k in SlotSeq() <==> k in SlotKeys() {
      if k in SlotSeq() {
        var j :| 0 <= j < SlotCount && SlotSeq()[j] == k;
      }
    }
  }

  /** The meal name each slot gets: the first entry of its own shuffle. */
  function WeekNames(orders: seq<seq<nat>>): (r: seq<string>)
    requires ValidWeekShuffles(orders)
    ensures |r| == SlotCount && forall j :: 0 <= j < SlotCount ==> r[j] == NameAt(orders[j][0])
  {
    seq(SlotCount, j requires 0 <= j < SlotCount => NameAt(orders[j][0]))
  }

  /** `plan` is `before` with the first `n` of `keys` set to the matching `vals`. */
  ghost predicate FilledUpTo<K, V>(plan: map<K, V>, before: map<K, V>, keys: seq<K>, vals: seq<V>, n: nat)
    requires n <= |keys| == |vals|
  {
    plan.Keys == before.Keys + (set j | 0 <= j < n :: keys[j]) &&
    (forall k :: k in before && k !in keys[..n] ==> plan[k] == before[k]) &&
    (forall j :: 0 <= j < n ==> keys[j] in plan && plan[keys[j]] == vals[j])
  }

  lemma FillStep<K, V>(plan: map<K, V>, before: map<K, V>, keys: seq<K>, vals: seq<V>, n: nat)
    requires n < |keys| == |vals| && NoDuplicates(keys)
    requires FilledUpTo(plan, before, keys, vals, n)
    ensures FilledUpTo(plan[keys[n] := vals[n]], before, keys, vals, n + 1)
  {
    assert (set j | 0 <= j < n + 1 :: keys[j]) == (set j | 0 <= j < n :: keys[j]) + {keys[n]};
    assert keys[..n + 1] == keys[..n] + [keys[n]];
  }

  lemma FilledAll<K, V>(plan: map<K, V>, before: map<K, V>, keys: seq<K>, vals: seq<V>)
    requires |keys| == |vals|
    requires FilledUpTo(plan, before, keys, vals, |keys|)
    ensures plan.Keys == before.Keys + (set k | k in keys)
    ensures forall k :: k in before && k !in keys ==> plan[k] == before[k]
  {
    assert keys[..|keys|] == keys;
    assert (set j | 0 <= j < |keys| :: keys[j]) == (set k | k in keys);
  }

  /** The plan that browser storage yields: the saved one, or an empty one
      when nothing was saved. */
  function LoadedPlan(saved: Option<map<string, string>>): map<string, string>
  {
    if saved.Some? then saved.value else map[]
  }

  /** The `localStorage` record under the key "mealPlan". */
  class PlanStore {
    var saved: Option<map<string, string>>

    constructor (saved: Option<map<string, string>>)
      ensures this.saved == saved
    {
      this.saved := saved;
    }
  }

  class MealPlanner {
    var ingredients: seq<string>
    var mealPlan: map<string, string>
    var currentMealType: string
    var currentDay: string
    const store: PlanStore

    ghost predicate Valid()
      reads this
    {
      WellFormedIngredients(ingredients)
    }

    /** `new MealPlanner()`: no ingredients, the saved plan, no slot picked. */
    constructor (store: PlanStore)
      ensures Valid() && this.store == store
      ensures ingredients == [] && mealPlan == LoadedPlan(store.saved)
      ensures currentMealType == "" && currentDay == ""
    {
      this.store := store;
      ingredients := [];
      mealPlan := LoadedPlan(store.saved);
      currentMealType := "";
      currentDay := "";
    }

    /** `addIngredient()` with the input box holding `input`. */
    method AddIngredient(input: string)
      requires Valid()
      modifies this`ingredients
      ensures Valid()
      ensures ingredients == WithIngredient(old(ingredients), input)
    {
      IngredientOpsPreserve(ingredients, input, "");
      var ingredient := Trim(input);
      if ingredient == [] {
        return;
      }
      if ingredient !in ingredients {
        ingredients := ingredients + [ingredient];
      }
    }

    /** `removeIngredient(ingredient)`. */
    method RemoveIngredient(ingredient: string)
      requires Valid()
      modifies this`ingredients
      ensures Valid()
      ensures ingredients == WithoutIngredient(old(ingredients), ingredient)
    {
      IngredientOpsPreserve(ingredients, "", ingredient);
      ingredients := WithoutIngredient(ingredients, ingredient);
    }

    /** The state part of the global `changeMeal(mealType, day)`: remembers
        which slot the next chosen meal goes to. */
    method ChangeMeal(mealType: string, day: string)
      modifies this`currentMealType, this`currentDay
      ensures currentMealType == mealType && currentDay == day
    {
      currentMealType := mealType;
      currentDay := day;
    }

    /** `selectMeal(mealName, category)`: without a picked slot nothing
        changes; otherwise only the picked slot is set and the pick is
        cleared. */
    method SelectMeal(mealName: string, category: Category)
      modifies this`mealPlan, this`currentMealType, this`currentDay
      ensures old(currentMealType) == "" || old(currentDay) == "" ==>
        mealPlan == old(mealPlan) && currentMealType == old(currentMealType) && currentDay == old(currentDay)
      ensures old(currentMealType) != "" && old(currentDay) != "" ==>
        mealPlan == old(mealPlan)[SlotKey(old(currentMealType), old(currentDay)) := mealName] &&
        currentMealType == "" && currentDay == ""
    {
      if currentMealType == "" || currentDay == "" {
        return;
      }
      var mealKey := SlotKey(currentMealType, currentDay);
      mealPlan := mealPlan[mealKey := mealName];
      currentMealType := "";
      currentDay := "";
    }

    /** `generateRandomMeals()`: every one of the 21 slots gets the first meal
        of its own shuffle of the catalog; other keys keep their meals. */
    method GenerateRandomMeals(orders: seq<seq<nat>>)
      requires ValidWeekShuffles(orders)
      modifies this`mealPlan
      ensures mealPlan.Keys == old(mealPlan).Keys + SlotKeys()
      ensures forall k :: k in old(mealPlan) && k !in SlotKeys() ==> mealPlan[k] == old(mealPlan)[k]
      ensures forall j :: 0 <= j < SlotCount ==> mealPlan[SlotAt(j)] == NameAt(orders[j][0])
    {
      ghost var keys, names := SlotSeq(), WeekNames(orders);
      for di := 0 to |Days|
        invariant FilledUpTo(mealPlan, old(mealPlan), keys, names, 3 * di)
      {
        FillDay(di, orders, old(mealPlan));
      }
      FilledAll(mealPlan, old(mealPlan), keys, names);
      SlotSeqKeys();
    }

    /** The `days.forEach` callback of `generateRandomMeals` for the day at
        `di`: fills its three slots in meal-type order. */
    method FillDay(di: nat, orders: seq<seq<nat>>, ghost before: map<string, string>)
      requires di < |Days| && ValidWeekShuffles(orders)
      requires FilledUpTo(mealPlan, before, SlotSeq(), WeekNames(orders), 3 * di)
      modifies this`mealPlan
      ensures FilledUpTo(mealPlan, before, SlotSeq(), WeekNames(orders), 3 * di + 3)
    {
      ghost var keys, names := SlotSeq(), WeekNames(orders);
      var day := Days[di];
      for ti := 0 to |MealTypes|
        invariant FilledUpTo(mealPlan, before, keys, names, 3 * di + ti)
      {
        var mealType := MealTypes[ti];
        var n := 3 * di + ti;
        SlotAtPosition(ti, di);
        var randomMeals := GetRandomMeals(1, orders[n]);
        if |randomMeals| > 0 {
          var mealKey := SlotKey(mealType, day);
          assert mealKey == keys[n];
          assert randomMeals[0].entry.meal.name == names[n];
          FillStep(mealPlan, before, keys, names, n);
          mealPlan := mealPlan[mealKey := randomMeals[0].entry.meal.name];
        }
      }
    }

    /** `clearAll()` once `confirm` answered `confirmed`. */
    method ClearAll(confirmed: bool)
      modifies this`ingredients, this`mealPlan
      ensures confirmed ==> ingredients == [] && mealPlan == map[]
      ensures !confirmed ==> ingredients == old(ingredients) && mealPlan == old(mealPlan)
    {
      if confirmed {
        ingredients := [];
        mealPlan := map[];
      }
    }

    /** `saveMealPlan()`: the stored record becomes a copy of the plan. */
    method SaveMealPlan()
      modifies store
      ensures store.saved == Some(mealPlan)
    {
      store.saved := Some(mealPlan);
    }

    /** Saving the plan and then opening a new planner on the same storage
        gives back this plan. */
    method SaveAndReopen() returns (reopened: MealPlanner)
      modifies store
      ensures fresh(reopened) && reopened.store == store && reopened.Valid()
      ensures store.saved == Some(mealPlan) && reopened.mealPlan == mealPlan
    {
      SaveMealPlan();
      reopened := new MealPlanner(store);
    }

    /** `loadMealPlan()`: the plan becomes the stored one, or empty. */
    method LoadMealPlan() returns (plan: map<string, string>)
      modifies this`mealPlan
      ensures mealPlan == LoadedPlan(store.saved) && plan == mealPlan
    {
      mealPlan := LoadedPlan(store.saved);
      plan := mealPlan;
    }
  }
}
