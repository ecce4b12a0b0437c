/** The meal planner's suggestion search: `findMealsByIngredients`, its
    ingredient match test and the `getRandomMeals` fallback. */
module Suggestions {
  import opened Seqs
  import opened Text
  import opened Catalog

  /** What the search hands to the renderer. A random pick is a catalog entry
      alone; a search hit also carries `matchCount` and `matchedIngredients`. */
  datatype Suggestion =
    | Plain(entry: Entry)
    | Matched(entry: Entry, matchCount: nat, matchedIngredients: seq<string>)

  /** The sort key: `matchCount`, absent (0) on a random pick. */
  function MatchCount(s: Suggestion): int
  {
    if s.Matched? then s.matchCount else 0
  }

  // ---------------------------------------------------------------------
  // The match test

  /** An input ingredient matches a meal ingredient when, both lower-cased,
      either contains the other. */
  predicate IngredientsMatch(ing: string, mealIng: string)
  {
    Contains(ToLower(mealIng), ToLower(ing)) || Contains(ToLower(ing), ToLower(mealIng))
  }

  /** `meal.ingredients.some(mealIng => ...)`. */
  predicate MealUses(meal: Meal, ing: string)
  {
    exists k :: k in meal.ingredients && IngredientsMatch(ing, k)
  }

  /** The input ingredients a meal matches, in input order. */
  function MatchedIngredients(ingredients: seq<string>, meal: Meal): seq<string>
  {
    Filter(ingredients, ing => MealUses(meal, ing))
  }

  /** The match test does not care which side is the input. */
  lemma MatchSymmetric(a: string, b: string)
    ensures IngredientsMatch(a, b) <==> IngredientsMatch(b, a)
  {
  }

  /** The match test is substring containment of the lower-cased strings,
      in either direction. */
  lemma MatchMeansSubstring(ing: string, mealIng: string)
    ensures IngredientsMatch(ing, mealIng) <==>
      (exists i :: OccursAt(ToLower(mealIng), ToLower(ing), i)) ||
      (exists i :: OccursAt(ToLower(ing), ToLower(mealIng), i))
  {
  }

  /** An input naming one of a meal's ingredients exactly is always matched. */
  lemma ExactIngredientMatches(ingredients: seq<string>, meal: Meal, ing: string)
    requires ing in ingredients && ing in meal.ingredients
    ensures ing in MatchedIngredients(ingredients, meal)
  {
    ContainsSelf(ToLower(ing));
    assert MealUses(meal, ing);
    FilterMultiplicity(ingredients, x => MealUses(meal, x), ing);
  }

  // ---------------------------------------------------------------------
  // Collecting the hits

  /** The hit record for one catalog entry, or nothing when no input
      ingredient matches it. */
  function HitFor(ingredients: seq<string>, e: Entry): seq<Suggestion>
  {
    var m := MatchedIngredients(ingredients, e.meal);
    if |m| > 0 then [Matched(e, |m|, m)] else []
  }

  /** The hits among `entries`, in iteration order (`matchedMeals` before it
      is sorted). */
  function Candidates(ingredients: seq<string>, entries: seq<Entry>): seq<Suggestion>
  {
    if entries == [] then []
    else Candidates(ingredients, entries[..|entries| - 1]) + HitFor(ingredients, entries[|entries| - 1])
  }

  lemma CandidatesSnoc(ingredients: seq<string>, entries: seq<Entry>, e: Entry)
    ensures Candidates(ingredients, entries + [e]) == Candidates(ingredients, entries) + HitFor(ingredients, e)
  {
    assert (entries + [e])[..|entries|] == entries;
  }

  /** A hit is well formed: it counts at least one ingredient, its count is
      the number of ingredients it lists, and those come from the input in
      input order. */
  predicate WellFormedHit(ingredients: seq<string>, s: Suggestion)
  {
    s.Matched? && s.matchCount >= 1 && s.matchCount == |s.matchedIngredients| &&
    IsSubsequence(s.matchedIngredients, ingredients)
  }

  /** Every hit is well formed, comes from `entries`, and lists exactly the
      input ingredients its meal uses. */
  lemma {:induction false} HitsWellFormed(ingredients: seq<string>, entries: seq<Entry>)
    ensures forall s :: s in Candidates(ingredients, entries) ==>
      WellFormedHit(ingredients, s) && s.entry in entries &&
      s.matchedIngredients == MatchedIngredients(ingredients, s.entry.meal)
    decreases |entries|
  {
    if entries != [] {
      var init, last := entries[..|entries| - 1], entries[|entries| - 1];
      HitsWellFormed(ingredients, init);
      var m := MatchedIngredients(ingredients, last.meal);
      FilterIsSubsequence(ingredients, ing => MealUses(last.meal, ing));
      assert entries == init + [last];
      forall s | s in Candidates(ingredients, entries)
        ensures WellFormedHit(ingredients, s) && s.entry in entries &&
                s.matchedIngredients == MatchedIngredients(ingredients, s.entry.meal)
      {
        if s !in Candidates(ingredients, init) {
          assert s in HitFor(ingredients, last);
          assert s == Matched(last, |m|, m);
        }
      }
    }
  }

  /** An entry yields a hit exactly when it is among `entries` and its meal
      matches some input ingredient. */
  lemma {:induction false} HitOfEntry(ingredients: seq<string>, entries: seq<Entry>, e: Entry)
    ensures (exists s :: s in Candidates(ingredients, entries) && s.entry == e) <==>
      (e in entries && |MatchedIngredients(ingredients, e.meal)| > 0)
    decreases |entries|
  {
    if entries != [] {
      var init, last := entries[..|entries| - 1], entries[|entries| - 1];
      HitOfEntry(ingredients, init, e);
      var m := MatchedIngredients(ingredients, e.meal);
      var hits := Candidates(ingredients, entries);
      assert entries == init + [last];
      assert hits == Candidates(ingredients, init) + HitFor(ingredients, last);
      if e in entries && |m| > 0 {
        if e in init {
          var s :| s in Candidates(ingredients, init) && s.entry == e;
          assert s in hits;
        } else {
          assert e == last;
          assert HitFor(ingredients, last) == [Matched(e, |m|, m)];
          assert Matched(e, |m|, m) in hits;
        }
      }
      if exists s :: s in hits && s.entry == e {
        var s :| s in hits && s.entry == e;
        if s !in Candidates(ingredients, init) {
          assert s in HitFor(ingredients, last);
          assert e == last;
        }
      }
    }
  }

  /** Every hit is well formed and matches exactly the ingredients its meal
      uses; an entry yields a hit exactly when its meal uses some input. */
  lemma CandidatesFacts(ingredients: seq<string>, entries: seq<Entry>)
    ensures forall s :: s in Candidates(ingredients, entries) ==>
      WellFormedHit(ingredients, s) && s.entry in entries &&
      s.matchedIngredients == MatchedIngredients(ingredients, s.entry.meal)
    ensures forall e :: e in entries ==>
      ((exists s :: s in Candidates(ingredients, entries) && s.entry == e) <==>
       (exists ing :: ing in ingredients && MealUses(e.meal, ing)))
  {
    HitsWellFormed(ingredients, entries);
    forall e | e in entries
      ensures (exists s :: s in Candidates(ingredients, entries) && s.entry == e) <==>
              (exists ing :: ing in ingredients && MealUses(e.meal, ing))
    {
      HitOfEntry(ingredients, entries, e);
      UsesIffMatched(ingredients, e.meal);
    }
  }

  lemma UsesIffMatched(ingredients: seq<string>, meal: Meal)
    ensures |MatchedIngredients(ingredients, meal)| > 0 <==>
      exists ing :: ing in ingredients && MealUses(meal, ing)
  {
    var m := MatchedIngredients(ingredients, meal);
    if exists ing :: ing in ingredients && MealUses(meal, ing) {
      var ing :| ing in ingredients && MealUses(meal, ing);
      FilterMultiplicity(ingredients, x => MealUses(meal, x), ing);
      assert ing in m;
    }
    if |m| > 0 {
      assert m[0] in m;
    }
  }

  // ---------------------------------------------------------------------
  // The random fallback

  /** What the random-comparator sort of the catalog can produce: a
      rearrangement, given as the catalog position of each result slot. */
  predicate IsShuffle(order: seq<nat>)
  {
    |order| == CatalogSize && NoDuplicates(order) &&
    forall i :: 0 <= i < |order| ==> order[i] < CatalogSize
  }

  /** The first `count` catalog entries in shuffled order. */
  function RandomMeals(count: nat, order: seq<nat>): (r: seq<Suggestion>)
    requires IsShuffle(order)
  {
    Take(seq(|order|, i requires 0 <= i < |order| => Plain(AllEntries()[order[i]])), count)
  }

  /** `getRandomMeals(count)`: gathers every catalog entry (in catalog order),
      then cuts the shuffled copy to `count`. The result holds
      min(count, catalog size) entries taken from distinct catalog positions. */
  method GetRandomMeals(count: nat, order: seq<nat>) returns (r: seq<Suggestion>)
    requires IsShuffle(order)
    ensures r == RandomMeals(count, order)
    ensures |r| == if count < CatalogSize then count else CatalogSize
    ensures forall i :: 0 <= i < |r| ==> r[i].Plain? && r[i].entry == AllEntries()[order[i]]
  {
    var allMeals := CollectEntries(MealDatabase);
    assert allMeals == AllEntries();
    var shuffled := seq(|order|, i requires 0 <= i < |order| => Plain(allMeals[order[i]]));
    r := Take(shuffled, count);
  }

  /** The nested loop of `getRandomMeals` that pushes every `{...meal,
      category}` of a database into `allMeals`. */
  method CollectEntries(db: seq<(Category, seq<Meal>)>) returns (allMeals: seq<Entry>)
    ensures allMeals == EntriesOf(db)
  {
    allMeals := [];
    for ci := 0 to |db|
      invariant allMeals == EntriesOf(db[..ci])
    {
      var (category, meals) := db[ci];
      for mi := 0 to |meals|
        invariant allMeals == EntriesOf(db[..ci]) + Tagged(category, meals)[..mi]
      {
        assert Tagged(category, meals)[..mi + 1] == Tagged(category, meals)[..mi] + [Entry(meals[mi], category)];
        allMeals := allMeals + [Entry(meals[mi], category)];
      }
      EntriesOfSnoc(db[..ci], db[ci]);
      assert db[..ci + 1] == db[..ci] + [db[ci]];
    }
    assert db[..|db|] == db;
  }

  /** The fallback never repeats a catalog position and returns at most
      `count` meals, all from the catalog. */
  lemma RandomMealsFacts(count: nat, order: seq<nat>)
    requires IsShuffle(order)
    ensures |RandomMeals(count, order)| <= count
    ensures forall s :: s in RandomMeals(count, order) ==> s.Plain? && s.entry in AllEntries()
    ensures forall i, j :: 0 <= i < j < |RandomMeals(count, order)| ==> order[i] != order[j]
  {
  }

  // ---------------------------------------------------------------------
  // The search

  /** The number of suggestions kept after sorting. */
  const MaxSuggestions: nat := 8

  /** The number of random meals shown when nothing matches. */
  const RandomSuggestions: nat := 6

  /** `findMealsByIngredients(ingredients)`. With no ingredients, or when no
      meal matches, it falls back to six random meals. Otherwise it collects
      one hit per matching meal in catalog order, sorts the hits stably by
      `matchCount` (highest first) and keeps the first eight. */
  method FindMealsByIngredients(ingredients: seq<string>, order: seq<nat>) returns (r: seq<Suggestion>)
    requires IsShuffle(order)
    ensures ingredients == [] || Candidates(ingredients, AllEntries()) == [] ==>
      r == RandomMeals(RandomSuggestions, order)
    ensures ingredients != [] && Candidates(ingredients, AllEntries()) != [] ==>
      r == Take(SortDesc(Candidates(ingredients, AllEntries()), MatchCount), MaxSuggestions)
    ensures ingredients != [] && Candidates(ingredients, AllEntries()) != [] ==>
      1 <= |r| <= MaxSuggestions && SortedDesc(r, MatchCount) &&
      forall s :: s in r ==> WellFormedHit(ingredients, s)
  {
    if |ingredients| == 0 {
      r := GetRandomMeals(RandomSuggestions, order);
      return;
    }
    var matchedMeals := CollectMatches(ingredients, MealDatabase);
    assert matchedMeals == Candidates(ingredients, AllEntries());
    var sorted := SortDesc(matchedMeals, MatchCount);
    if |sorted| > 0 {
      r := Take(sorted, MaxSuggestions);
      TopHitsFacts(ingredients, AllEntries());
    } else {
      r := GetRandomMeals(RandomSuggestions, order);
    }
  }

  /** When some meal matches, the kept hits are between one and eight
      well-formed hits in non-increasing `matchCount` order. */
  lemma TopHitsFacts(ingredients: seq<string>, entries: seq<Entry>)
    requires Candidates(ingredients, entries) != []
    ensures var r := Take(SortDesc(Candidates(ingredients, entries), MatchCount), MaxSuggestions);
      1 <= |r| <= MaxSuggestions && SortedDesc(r, MatchCount) &&
      forall s :: s in r ==> WellFormedHit(ingredients, s)
  {
    var hits := Candidates(ingredients, entries);
    var sorted := SortDesc(hits, MatchCount);
    var r := Take(sorted, MaxSuggestions);
    SortDescCorrect(hits, MatchCount);
    CandidatesFacts(ingredients, entries);
    assert |sorted| == |multiset(sorted)| == |hits|;
    forall s | s in r ensures WellFormedHit(ingredients, s) {
      assert s in multiset(sorted);
    }
  }

  /** The nested loop of `findMealsByIngredients` that pushes one hit, with
      its `matchCount` and `matchedIngredients`, per matching meal of a
      database. */
  method CollectMatches(ingredients: seq<string>, db: seq<(Category, seq<Meal>)>)
    returns (matchedMeals: seq<Suggestion>)
    ensures matchedMeals == Candidates(ingredients, EntriesOf(db))
  {
    matchedMeals := [];
    for ci := 0 to |db|
      invariant matchedMeals == Candidates(ingredients, EntriesOf(db[..ci]))
    {
      var (category, meals) := db[ci];
      matchedMeals := CollectCategory(ingredients, category, meals, EntriesOf(db[..ci]), matchedMeals);
      EntriesOfSnoc(db[..ci], db[ci]);
      assert db[..ci + 1] == db[..ci] + [db[ci]];
    }
    assert db[..|db|] == db;
  }

  /** The inner loop of `findMealsByIngredients` over the meals of one
      category: appends their hits to those of the entries already seen. */
  method CollectCategory(ingredients: seq<string>, category: Category, meals: seq<Meal>,
                         ghost done: seq<Entry>, soFar: seq<Suggestion>)
    returns (matchedMeals: seq<Suggestion>)
    requires soFar == Candidates(ingredients, done)
    ensures matchedMeals == Candidates(ingredients, done + Tagged(category, meals))
  {
    matchedMeals := soFar;
    assert done + Tagged(category, meals)[..0] == done;
    for mi := 0 to |meals|
      invariant matchedMeals == Candidates(ingredients, done + Tagged(category, meals)[..mi])
    {
      var meal := meals[mi];
      var matched := MatchedIngredients(ingredients, meal);
      var matchCount := |matched|;
      if matchCount > 0 {
        matchedMeals := matchedMeals + [Matched(Entry(meal, category), matchCount, matched)];
      }
      HitForUnfold(ingredients, Entry(meal, category));
      CollectStep(ingredients, done, category, meals, mi);
    }
    assert Tagged(category, meals)[..|meals|] == Tagged(category, meals);
  }

  lemma HitForUnfold(ingredients: seq<string>, e: Entry)
    ensures var m := MatchedIngredients(ingredients, e.meal);
      HitFor(ingredients, e) == if |m| > 0 then [Matched(e, |m|, m)] else []
  {
  }

  lemma CollectStep(ingredients: seq<string>, done: seq<Entry>, category: Category, meals: seq<Meal>, mi: nat)
    requires mi < |meals|
    ensures Candidates(ingredients, done + Tagged(category, meals)[..mi + 1])
         == Candidates(ingredients, done + Tagged(category, meals)[..mi]) + HitFor(ingredients, Entry(meals[mi], category))
  {
    var e := Entry(meals[mi], category);
    assert done + Tagged(category, meals)[..mi + 1] == (done + Tagged(category, meals)[..mi]) + [e];
    CandidatesSnoc(ingredients, done + Tagged(category, meals)[..mi], e);
  }

  /** The eight kept hits are the best ones: a hit that was cut has no higher
      count than any hit that was kept, and among hits with an equal count the
      kept ones are the earliest in catalog order. */
  lemma SearchKeepsBest(ingredients: seq<string>, c: int)
    ensures var hits := Candidates(ingredients, AllEntries());
            var r := Take(SortDesc(hits, MatchCount), MaxSuggestions);
            (forall s :: s in hits && s !in r ==>
               forall t :: t in r ==> MatchCount(t) >= MatchCount(s)) &&
            var kept, all := KeyClass(r, MatchCount, c), KeyClass(hits, MatchCount, c);
            |kept| <= |all| && kept == all[..|kept|]
  {
    var hits := Candidates(ingredients, AllEntries());
    var sorted := SortDesc(hits, MatchCount);
    var r := Take(sorted, MaxSuggestions);
    SortDescCorrect(hits, MatchCount);
    forall s | s in hits && s !in r
      ensures forall t :: t in r ==> MatchCount(t) >= MatchCount(s)
    {
      assert s in multiset(sorted);
      var k :| 0 <= k < |sorted| && sorted[k] == s;
      assert k >= |r|;
      forall t | t in r ensures MatchCount(t) >= MatchCount(s) {
        var j :| 0 <= j < |r| && r[j] == t;
        assert sorted[j] == t;
      }
    }
    TakeKeyClass(sorted, MaxSuggestions, c);
  }

  /** Cutting a list keeps, for each key, a prefix of the elements with
      that key. */
  lemma TakeKeyClass(s: seq<Suggestion>, n: nat, c: int)
    ensures var kept, all := KeyClass(Take(s, n), MatchCount, c), KeyClass(s, MatchCount, c);
      |kept| <= |all| && kept == all[..|kept|]
  {
    var t := Take(s, n);
    if |s| > n {
      assert s == t + s[n..];
      KeyClassAppend(t, s[n..], MatchCount, c);
    }
  }
}
