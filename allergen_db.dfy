/**
 * The `AllergenDB` object: the static tables it was built with, the user override store it
 * mutates, and the operations the rest of the application calls.
 */
module AllergenDb {
  import opened Wrappers
  import opened Text
  import opened Knowledge
  import opened MatchResolver
  import opened Menu
  import opened UserStore
  import opened Safety

  class AllergenDB {
    /** `database` and `genericAdvice`, with the name-keyword rules `findMatch` declares. */
    const kb: KnowledgeBase
    /** `userCustomData`: restaurant id -> user record. */
    var userCustomData: Store
    /** Every snapshot `saveUserData` has written to persistent storage, oldest first. */
    ghost var saved: seq<Store>

    ghost predicate Valid()
      reads this
    {
      kb.WellFormed() && userCustomData.Valid()
    }

    /** `new AllergenDB()`; `stored` is what `loadUserData` read back (`None`: nothing was stored). */
    constructor (stored: Option<Store>)
      requires stored.Some? ==> stored.value.Valid()
      ensures Valid() && kb == Catalog && saved == []
      ensures userCustomData == stored.GetOr(Empty)
    {
      kb := Catalog;
      userCustomData := stored.GetOr(Empty);
      saved := [];
    }

    /** `findMatch`: three early-exit scans, curated chains first. */
    method FindMatch(restaurantName: string, cuisineTypes: seq<string>) returns (m: Match)
      requires Valid()
      ensures m == Resolve(kb, restaurantName, cuisineTypes)
    {
      var searchName := Lower(restaurantName);
      var i := 0;
      while i < |kb.chains|
        invariant i <= |kb.chains|
        invariant forall j :: 0 <= j < i ==> !ChainHit(kb.chains[j], searchName)
      {
        if ChainHit(kb.chains[i], searchName) {
          return Curated(kb.chains[i].key, kb.chains[i].safeItems);
        }
        i := i + 1;
      }
      if |cuisineTypes| > 0 {
        var t := 0;
        while t < |cuisineTypes|
          invariant t <= |cuisineTypes|
          invariant forall j :: 0 <= j < t ==> Lower(cuisineTypes[j]) !in kb.advice
        {
          var normalizedType := Lower(cuisineTypes[t]);
          if normalizedType in kb.advice {
            return Generic(kb.advice[normalizedType]);
          }
          t := t + 1;
        }
      }
      var w := 0;
      while w < |kb.keywords|
        invariant w <= |kb.keywords|
        invariant forall j :: 0 <= j < w ==> !Includes(searchName, kb.keywords[j].0)
      {
        if Includes(searchName, kb.keywords[w].0) {
          return Generic(kb.advice[kb.keywords[w].1]);
        }
        w := w + 1;
      }
      return NoMatch;
    }

    /** `getSafeItemsForRestaurant`: push each selected allergen's list, then drop repeated names. */
    method GetSafeItemsForRestaurant(restaurantName: string, selectedAllergens: seq<string>, cuisineTypes: seq<string>)
      returns (items: seq<MenuItem>)
      requires Valid()
      ensures items == SafeItems(kb, userCustomData, restaurantName, selectedAllergens, cuisineTypes)
    {
      var m := FindMatch(restaurantName, cuisineTypes);
      if m.NoMatch? {
        return UserCustomItems(userCustomData, restaurantName, selectedAllergens);
      }
      var source := if m.Curated? then "curated" else "general advice";
      var safeItems: seq<MenuItem> := [];
      for i := 0 to |selectedAllergens|
        invariant safeItems == Gathered(m.safeItems, selectedAllergens[..i], source)
      {
        assert selectedAllergens[..i + 1][..i] == selectedAllergens[..i];
        var allergen := selectedAllergens[i];
        if allergen in m.safeItems {
          safeItems := safeItems + Tagged(m.safeItems[allergen], source);
        }
      }
      assert selectedAllergens[..|selectedAllergens|] == selectedAllergens;
      items := RemoveDuplicates(safeItems);
    }

    /**
     * `hasSafeItems`: true for an empty selection, else an existence test on the match or the
     * fallback. The method takes the steps of the predicate `HasSafe` in the same order, and its
     * ensures ties the answer to it; `HasSafeSpec` relates `HasSafe` to the list `SafeItems`.
     */
    method HasSafeItems(restaurantName: string, selectedAllergens: seq<string>, cuisineTypes: seq<string>)
      returns (b: bool)
      requires Valid()
      ensures b == HasSafe(kb, userCustomData, restaurantName, selectedAllergens, cuisineTypes)
    {
      if |selectedAllergens| == 0 {
        return true;
      }
      var m := FindMatch(restaurantName, cuisineTypes);
      if !m.NoMatch? {
        return SomeListNonEmpty(m.safeItems, selectedAllergens);
      }
      var customItems := UserCustomItems(userCustomData, restaurantName, selectedAllergens);
      return |customItems| > 0;
    }

    /** `getSafeItemsCount`: the length of the list resolved with no cuisine types. */
    method GetSafeItemsCount(restaurantName: string, selectedAllergens: seq<string>) returns (count: nat)
      requires Valid()
      ensures count == |SafeItems(kb, userCustomData, restaurantName, selectedAllergens, [])|
    {
      var items := GetSafeItemsForRestaurant(restaurantName, selectedAllergens, []);
      count := |items|;
    }

    /**
     * `addCustomItem`: create the record under `restaurantId` if it is absent, append the item with
     * its source defaulted to "user", then persist the whole store.
     */
    method AddCustomItem(restaurantId: string, restaurantName: string, menuItem: MenuItem)
      requires Valid()
      modifies this
      ensures Valid()
      ensures userCustomData == WithItem(old(userCustomData), restaurantId, restaurantName, menuItem)
      ensures saved == old(saved) + [userCustomData]
    {
      var data := userCustomData;
      if restaurantId !in data.records {
        data := Store(data.order + [restaurantId], data.records[restaurantId := UserRecord(restaurantName, [])]);
      }
      var item := if menuItem.source == "" then menuItem.(source := "user") else menuItem;
      var record := data.records[restaurantId];
      data := data.(records := data.records[restaurantId := record.(items := record.items + [item])]);
      userCustomData := data;
      saved := saved + [userCustomData];
    }

    /** `exportUserData`: the snapshot that would be serialised. */
    method ExportUserData() returns (snapshot: Store)
      requires Valid()
      ensures snapshot == userCustomData && snapshot.Valid()
    {
      snapshot := userCustomData;
    }

    /**
     * `importUserData`: `parsed` is the parsed snapshot, `None` when parsing failed. A failure
     * reports false and changes nothing; a success merges key-wise, persists and reports true.
     */
    method ImportUserData(parsed: Option<Store>) returns (ok: bool)
      requires Valid()
      requires parsed.Some? ==> parsed.value.Valid()
      modifies this
      ensures Valid()
      ensures ok == parsed.Some?
      ensures !ok ==> userCustomData == old(userCustomData) && saved == old(saved)
      ensures ok ==> userCustomData == Merge(old(userCustomData), parsed.value) && saved == old(saved) + [userCustomData]
    {
      if parsed.None? {
        return false;
      }
      userCustomData := Merge(userCustomData, parsed.value);
      saved := saved + [userCustomData];
      return true;
    }
  }
}
