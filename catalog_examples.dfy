/** The shipped tables at work on a concrete restaurant. */
module CatalogExamples {
  import opened Wrappers
  import opened Text
  import opened Knowledge
  import opened MatchResolver
  import opened Menu
  import opened UserStore
  import opened Safety

  const Downtown := "Chipotle Mexican Grill Downtown"

  /** The lower-cased name starts with the alias "chipotle". */
  lemma DowntownHitsChipotle()
    ensures ChainHit(ChainTable[0], Lower(Downtown))
  {
    var lname := Lower(Downtown);
    assert lname[0] == 'c' && lname[1] == 'h' && lname[2] == 'i' && lname[3] == 'p';
    assert lname[4] == 'o' && lname[5] == 't' && lname[6] == 'l' && lname[7] == 'e';
    assert ChainTable[0].aliases[0] <= lname;
  }

  /** "Chipotle Mexican Grill Downtown" resolves to the curated "chipotle" chain whatever the tags. */
  lemma DowntownIsChipotle(types: seq<string>)
    ensures Resolve(Catalog, Downtown, types) == Curated("chipotle", ChainTable[0].safeItems)
  {
    DowntownHitsChipotle();
    CuratedWins(Catalog, Downtown, types, 0);
  }

  /** A one-allergen selection names exactly that allergen's list. */
  lemma SelectedNamesSingle(t: AllergenTable, a: string)
    requires a in t
    ensures SelectedNames(t, [a]) == set n | n in t[a]
  {
  }

  /** The six dairy-safe items of the chipotle entry, as a set of names. */
  lemma ChipotleDairyNames()
    ensures (set n | n in ChainTable[0].safeItems["dairy"]) ==
      {"burrito bowl", "tacos (no cheese/sour cream)", "salad", "guacamole", "chips", "sofritas"}
  {
  }

  /** Selecting dairy there yields chipotle's six dairy-safe items, once each, all tagged "curated". */
  lemma DowntownDairy()
    ensures var r := SafeItems(Catalog, Empty, Downtown, ["dairy"], []);
      && DistinctNames(r)
      && Names(r) == {"burrito bowl", "tacos (no cheese/sour cream)", "salad", "guacamole", "chips", "sofritas"}
      && forall x :: x in r ==> x.source == "curated"
  {
    var r := SafeItems(Catalog, Empty, Downtown, ["dairy"], []);
    var m := Resolve(Catalog, Downtown, []);
    DowntownIsChipotle([]);
    assert m.Curated?;
    MatchedSafeItems(Catalog, Empty, Downtown, ["dairy"], []);
    assert forall x :: x in r ==> (x.source == "curated" <==> m.Curated?);
    assert forall x :: x in r ==> x.source == "curated";
    SelectedNamesSingle(ChainTable[0].safeItems, "dairy");
    ChipotleDairyNames();
  }

  /** A name with no chain alias and no name keyword in it. */
  const Lola := "Lola"

  /** None of the shipped aliases or keywords occurs in "lola": each starts with a letter it lacks. */
  lemma LolaMissesTables()
    ensures forall i, j :: 0 <= i < |ChainTable| && 0 <= j < |ChainTable[i].aliases| ==>
      !Includes(Lower(Lola), ChainTable[i].aliases[j])
    ensures forall w :: 0 <= w < |NameKeywords| ==> !Includes(Lower(Lola), NameKeywords[w].0)
  {
    var lname := Lower(Lola);
    assert lname == "lola";
    forall i, j | 0 <= i < |ChainTable| && 0 <= j < |ChainTable[i].aliases|
      ensures !Includes(lname, ChainTable[i].aliases[j])
    {
      FirstCharAbsent(lname, ChainTable[i].aliases[j]);
    }
    forall w | 0 <= w < |NameKeywords| ensures !Includes(lname, NameKeywords[w].0) {
      FirstCharAbsent(lname, NameKeywords[w].0);
    }
  }

  /** With the tag "mexican_restaurant", "Lola" gets the Mexican cuisine advice. */
  lemma LolaByTag()
    ensures Resolve(Catalog, Lola, ["mexican_restaurant"]) == Generic(CuisineAdvice["mexican_restaurant"])
  {
    LolaMissesTables();
    var types := ["mexican_restaurant"];
    assert Lower(types[0]) == "mexican_restaurant";
    TagAdviceWins(Catalog, Lola, types, 0);
  }

  /** Without tags, nothing in the shipped tables applies to "Lola". */
  lemma LolaByName()
    ensures Resolve(Catalog, Lola, []) == NoMatch
  {
    LolaMissesTables();
    NoMatchIff(Catalog, Lola, []);
  }

  /** The Mexican cuisine advice lists items safe from dairy. */
  lemma MexicanAdviceCoversDairy()
    ensures SomeListNonEmpty(CuisineAdvice["mexican_restaurant"], ["dairy"])
  {
    var sel, advice := ["dairy"], CuisineAdvice["mexican_restaurant"];
    assert sel[0] in advice && |advice[sel[0]]| > 0;
  }

  /** Looked up by name alone, with no user restaurants, "Lola" has nothing safe. */
  lemma LolaCountZero()
    ensures SafeItemsCount(Catalog, Empty, Lola, ["dairy"]) == 0
  {
    LolaByName();
    CatalogWellFormed();
    UnknownRestaurant(Catalog, Empty, Lola, ["dairy"], []);
  }

  /**
   * The count ignores cuisine tags although the qualification test uses them: "Lola" tagged
   * "mexican_restaurant" qualifies for a dairy selection through the shipped cuisine advice, yet
   * its count, looked up by name alone, is 0.
   */
  lemma CountIgnoresCuisineTypes()
    ensures HasSafe(Catalog, Empty, Lola, ["dairy"], ["mexican_restaurant"])
    ensures SafeItemsCount(Catalog, Empty, Lola, ["dairy"]) == 0
  {
    LolaByTag();
    MexicanAdviceCoversDairy();
    LolaCountZero();
  }

  /** A user item that declares no allergen, and a store holding it twice for "Lola". */
  const Fries := MenuItem("Fries", "entree", [], "user")
  const LolaStore := Store(["r9"], map["r9" := UserRecord(Lola, [Fries, Fries])])

  /** Neither copy declares dairy, so the filter keeps both. */
  lemma FriesTwiceKept()
    ensures SafeUserItems([Fries, Fries], ["dairy"]) == [Fries, Fries]
  {
    assert !DeclaresAny(Fries, ["dairy"]);
    assert [Fries, Fries][..1] == [Fries];
    assert SafeUserItems([Fries], ["dairy"]) == [Fries];
  }

  /** The fallback for "Lola" in that store returns both copies. */
  lemma LolaStoreFallback()
    ensures LolaStore.Valid()
    ensures UserCustomItems(LolaStore, Lola, ["dairy"]) == [Fries, Fries]
  {
    assert LolaStore.Valid();
    assert FindByName(LolaStore, Lola) == Some(UserRecord(Lola, [Fries, Fries]));
    FriesTwiceKept();
  }

  /**
   * De-duplication applies to curated and generic lists only: two user items with the same name,
   * stored for "Lola", both come back from the fallback.
   */
  lemma UserFallbackMayRepeatNames()
    ensures LolaStore.Valid()
    ensures SafeItems(Catalog, LolaStore, Lola, ["dairy"], []) == [Fries, Fries]
  {
    CatalogWellFormed();
    LolaByName();
    LolaStoreFallback();
  }
}
