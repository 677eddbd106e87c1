/**
 * The static reference data: the curated chain table, the generic cuisine advice table and the
 * name-keyword rules, gathered into one knowledge base that the resolver receives as a value.
 */
module Knowledge {

  /** Allergen id -> ordered list of item names judged safe for someone avoiding that allergen. */
  type AllergenTable = map<string, seq<string>>

  /** One curated chain: its table key, the lower-case aliases that identify it, its safe items. */
  datatype ChainEntry = ChainEntry(key: string, aliases: seq<string>, safeItems: AllergenTable)

  /**
   * `chains` keeps the insertion order of the curated table (the scan order and hence the
   * tie-break); `keywords` maps a name keyword to a cuisine category, in declaration order.
   */
  datatype KnowledgeBase = KnowledgeBase(
    chains: seq<ChainEntry>,
    advice: map<string, AllergenTable>,
    keywords: seq<(string, string)>)
  {
    /** Every keyword rule points at a category the advice table has. */
    predicate WellFormed() {
      forall i :: 0 <= i < |keywords| ==> keywords[i].1 in advice
    }
  }

  const ChainTable: seq<ChainEntry> := [
    ChainEntry("chipotle", ["chipotle", "chipotle mexican grill"], map[
      "dairy" := ["burrito bowl", "tacos (no cheese/sour cream)", "salad", "guacamole", "chips", "sofritas"],
      "gluten" := ["burrito bowl", "salad", "guacamole", "chips and guacamole"],
      "nuts" := ["most items", "burrito", "bowl", "tacos", " salad"],
      "soy" := ["burrito", "bowl", "tacos", "salad (no sofritas)"]]),
    ChainEntry("panera", ["panera", "panera bread"], map[
      "dairy" := ["green goddess cobb salad (no cheese)", "mediterranean bowl"],
      "gluten" := ["power bowls", "salads (no croutons)"],
      "nuts" := ["most items except some salads"]]),
    ChainEntry("sweetgreen", ["sweetgreen", "sweet green"], map[
      "dairy" := ["most salads without cheese", "bowls"],
      "gluten" := ["all salads and bowls (no bread)"],
      "nuts" := ["most items - check specific salads"]]),
    ChainEntry("blaze pizza", ["blaze", "blaze pizza"], map[
      "dairy" := ["vegan cheese option available"],
      "gluten" := ["gluten-free crust available"]]),
    ChainEntry("mod pizza", ["mod", "mod pizza"], map[
      "dairy" := ["dairy-free cheese available"],
      "gluten" := ["gluten-friendly crust available"]]),
    ChainEntry("pf changs", ["pf chang", "p.f. chang"], map[
      "gluten" := ["gluten-free menu available", "lettuce wraps", "buddha's feast"],
      "dairy" := ["most items except desserts"]]),
    ChainEntry("qdoba", ["qdoba"], map[
      "dairy" := ["bowl (no cheese/sour cream)", "guacamole", "chips"],
      "gluten" := ["bowl", "salad", "guacamole"]]),
    ChainEntry("red robin", ["red robin"], map[
      "gluten" := ["gluten-free buns available", "wedgie burger (lettuce wrap)"],
      "dairy" := ["burgers without cheese"]]),
    ChainEntry("starbucks", ["starbucks"], map[
      "dairy" := ["almond milk", "oat milk", "soy milk", "coconut milk options"],
      "gluten" := ["most drinks", "egg bites", "protein boxes (check specific items)"]])
  ]

  const CuisineAdvice: map<string, AllergenTable> := map[
    "fast_food_restaurant" := map[
      "dairy" := ["Burgers (no cheese)", "Fries", "Garden Salad (no cheese)", "Grilled Chicken (unbreaded)"],
      "gluten" := ["Burger Bowls (no bun)", "Salads (no croutons)", "Grilled Chicken", "Fries (verify dedicated fryer)"],
      "nuts" := ["Most basic burgers", "Fries", "Standard salads"],
      "peanuts" := ["Most basic burgers", "Fries", "Standard salads"]],
    "pizza_restaurant" := map[
      "dairy" := ["Salads (no cheese)", "Pizza with NO cheese", "Vegan cheese options (if available)"],
      "gluten" := ["Gluten-free crust (if available)", "Salads (no croutons)"],
      "dairy-free" := ["Pizza without cheese", "Breadsticks (without butter/cheese)"]],
    "mexican_restaurant" := map[
      "dairy" := ["Tacos/Burritos (no cheese or sour cream)", "Guacamole", "Ceviche", "Frijoles (check for lard/cheese)"],
      "gluten" := ["Corn tortillas", "Rice and Beans", "Carnitas", "Fajitas (with corn tortillas)"],
      "soy" := ["Grilled meats", "Fresh salsas"]],
    "italian_restaurant" := map[
      "dairy" := ["Pasta with marinara (no parm)", "Grilled fish/chicken", "Minestrone soup (check for cheese)", "Bruschetta (no cheese)"],
      "gluten" := ["Gluten-free pasta (if available)", "Grilled meats", "Risotto (check for bouillon/butter)"]],
    "japanese_restaurant" := map[
      "dairy" := ["Most sushi rolls", "Sashimi", "Miso soup", "Edamame", "Teriyaki (check for soy/gluten)"],
      "gluten" := ["Sashimi", "Steamed rice", "Tamari-based sauces"],
      "soy" := ["Sashimi (no soy sauce)", "Steamed rice", "Grilled fish"]],
    "american_restaurant" := map[
      "dairy" := ["Steak/Grilled Chicken", "Baked Potato (no butter/sour cream)", "Steamed Vegetables", "Salads (no cheese/creamy dressing)"],
      "gluten" := ["Grilled proteins", "Baked potato", "Steamed vegetables", "Salads (no croutons/bread)"]]
  ]

  /** The keyword rules of the name heuristic; the first keyword found in the name wins. */
  const NameKeywords: seq<(string, string)> := [
    ("pizza", "pizza_restaurant"),
    ("taco", "mexican_restaurant"),
    ("mexican", "mexican_restaurant"),
    ("burger", "fast_food_restaurant"),
    ("sushi", "japanese_restaurant"),
    ("italian", "italian_restaurant")
  ]

  /** The knowledge base the application constructs its database with. */
  const Catalog: KnowledgeBase := KnowledgeBase(ChainTable, CuisineAdvice, NameKeywords)

  /** Every keyword rule of the shipped catalogue names a cuisine that has advice. */
  lemma CatalogWellFormed()
    ensures Catalog.WellFormed()
  {
    forall i | 0 <= i < |NameKeywords|
      ensures NameKeywords[i].1 in CuisineAdvice.Keys
    {
      assert NameKeywords[i].1 in {"pizza_restaurant", "mexican_restaurant", "fast_food_restaurant",
        "japanese_restaurant", "italian_restaurant"};
    }
  }
}
