/** The meal planner's built-in catalog (`mealDatabase`): meals grouped by
    meal type, iterated breakfast, lunch, dinner as `Object.entries` yields
    them. */
module Catalog {

  datatype Category = Breakfast | Lunch | Dinner

  /** One catalog meal. */
  datatype Meal = Meal(name: string, description: string, ingredients: seq<string>)

  /** A meal tagged with its category: the `{...meal, category}` objects. */
  datatype Entry = Entry(meal: Meal, category: Category)

  const BreakfastMeals: seq<Meal> := [
    Meal("김치볶음밥", "매콤한 김치와 밥의 조화", ["김치", "밥", "계란", "파", "참기름"]),
    Meal("토스트", "바삭한 식빵과 다양한 토핑", ["식빵", "버터", "잼", "치즈"]),
    Meal("계란후라이", "간단하고 영양가 있는 아침식사", ["계란", "기름", "소금"]),
    Meal("오트밀", "건강한 곡물 아침식사", ["오트밀", "우유", "과일", "견과류"]),
    Meal("샌드위치", "든든한 아침 샌드위치", ["식빵", "햄", "치즈", "야채", "마요네즈"]),
    Meal("죽", "부드럽고 소화 잘되는 죽", ["쌀", "물", "소금", "참기름"]),
    Meal("시리얼", "간편한 아침식사", ["시리얼", "우유", "과일"]),
    Meal("팬케이크", "달콤한 아침 디저트", ["밀가루", "계란", "우유", "설탕", "시럽"])
  ]

  const LunchMeals: seq<Meal> := [
    Meal("불고기", "달콤짭짤한 한국 전통 요리", ["소고기", "양파", "당근", "간장", "설탕", "마늘"]),
    Meal("김치찌개", "얼큰하고 시원한 국물요리", ["김치", "돼지고기", "두부", "파", "고춧가루"]),
    Meal("된장찌개", "구수한 된장 국물", ["된장", "두부", "감자", "양파", "호박", "멸치육수"]),
    Meal("비빔밥", "다양한 나물과 고추장의 조화", ["밥", "나물", "고추장", "계란", "참기름"]),
    Meal("제육볶음", "매콤한 돼지고기 볶음", ["돼지고기", "양파", "고추장", "마늘", "생강"]),
    Meal("닭갈비", "춘천 특산 매콤한 닭요리", ["닭고기", "양배추", "고추장", "양파", "떡"]),
    Meal("갈비탕", "진한 국물의 보양식", ["갈비", "무", "파", "마늘", "후추"]),
    Meal("삼겹살", "고소한 돼지고기 구이", ["삼겹살", "마늘", "상추", "쌈장"]),
    Meal("치킨", "바삭한 튀김닭", ["닭고기", "밀가루", "기름", "양념"]),
    Meal("파스타", "이탈리아 면요리", ["면", "토마토소스", "마늘", "올리브오일", "치즈"])
  ]

  const DinnerMeals: seq<Meal> := [
    Meal("삼계탕", "몸보신에 좋은 닭요리", ["닭", "인삼", "대추", "마늘", "찹쌀"]),
    Meal("해물탕", "시원한 해산물 국물", ["새우", "조개", "오징어", "무", "미나리"]),
    Meal("갈치조림", "짭짤한 생선조림", ["갈치", "무", "간장", "고춧가루", "마늘"]),
    Meal("떡볶이", "매콤달콤한 분식", ["떡", "어묵", "양배추", "고추장", "설탕"]),
    Meal("순두부찌개", "부드러운 두부찌개", ["순두부", "계란", "파", "고춧가루", "멸치육수"]),
    Meal("bulgogi", "Korean marinated beef", ["beef", "soy sauce", "sugar", "garlic", "pear"]),
    Meal("스테이크", "육즙 가득한 소고기", ["소고기", "소금", "후추", "마늘", "버터"]),
    Meal("연어구이", "건강한 생선요리", ["연어", "레몬", "올리브오일", "허브", "소금"]),
    Meal("카레", "향신료 가득한 인도요리", ["카레가루", "감자", "당근", "양파", "고기"]),
    Meal("마라탕", "얼얼한 중국 훠궈", ["면", "야채", "고기", "마라소스", "두부"])
  ]

  /** `mealDatabase` in `Object.entries` order. */
  const MealDatabase: seq<(Category, seq<Meal>)> :=
    [(Breakfast, BreakfastMeals), (Lunch, LunchMeals), (Dinner, DinnerMeals)]

  /** Number of meals in the catalog. */
  const CatalogSize: nat := 28

  /** The meals of one category, each tagged with it. */
  function Tagged(category: Category, meals: seq<Meal>): (r: seq<Entry>)
    ensures |r| == |meals|
    ensures forall i :: 0 <= i < |meals| ==> r[i] == Entry(meals[i], category)
  {
    seq(|meals|, i requires 0 <= i < |meals| => Entry(meals[i], category))
  }

  /** Every meal of `db`, category by category, in iteration order. */
  function EntriesOf(db: seq<(Category, seq<Meal>)>): seq<Entry>
  {
    if db == [] then []
    else EntriesOf(db[..|db| - 1]) + Tagged(db[|db| - 1].0, db[|db| - 1].1)
  }

  /** The catalog flattened: what `getRandomMeals` collects into `allMeals`. */
  function AllEntries(): (r: seq<Entry>)
    ensures |r| == CatalogSize
  {
    CatalogSizeIs28();
    EntriesOf(MealDatabase)
  }

  /** The names a plan slot can be filled with by `generateRandomMeals`. */
  function NameAt(i: nat): string
    requires i < CatalogSize
  {
    AllEntries()[i].meal.name
  }

  lemma EntriesOfSnoc(db: seq<(Category, seq<Meal>)>, c: (Category, seq<Meal>))
    ensures EntriesOf(db + [c]) == EntriesOf(db) + Tagged(c.0, c.1)
  {
    assert (db + [c])[..|db|] == db;
  }

  /** The catalog holds 8 breakfasts, 10 lunches and 10 dinners. */
  lemma CatalogSizeIs28()
    ensures |EntriesOf(MealDatabase)| == CatalogSize
  {
    EntriesOfSnoc([], MealDatabase[0]);
    EntriesOfSnoc(MealDatabase[..1], MealDatabase[1]);
    EntriesOfSnoc(MealDatabase[..2], MealDatabase[2]);
    assert MealDatabase[..1] == [] + [MealDatabase[0]];
    assert MealDatabase[..2] == MealDatabase[..1] + [MealDatabase[1]];
    assert MealDatabase == MealDatabase[..2] + [MealDatabase[2]];
  }
}
