# Allergen-safe restaurant engine in Dafny

This project models the matching and ranking core of the allergen-safe eating app.
The app takes a restaurant's name and cuisine tags and decides which knowledge applies to it:

- a curated chain entry, when an alias of the chain occurs in the lower-cased name;
- generic cuisine advice, chosen first by the restaurant's own tags and then by keywords guessed from its name;
- the user's own records of restaurants, entered by hand.

From that choice the app derives:

- the safe items for the selected allergens;
- whether the restaurant qualifies at all;
- the safe-item count used for ranking.

With allergens selected, `filterRestaurants` then keeps the restaurants that qualify, annotates each with its count, and sorts by count, larger first, then by distance. With nothing selected it neither filters nor annotates, and only sorts every restaurant by distance.

Layout:

- `text.dfy`: ASCII lower-casing and the substring test (`Text`).
- `knowledge.dfy`: the shipped tables as values (`Knowledge`). These are the curated chains in table order, the generic cuisine advice and the name-keyword rules.
- `match_resolver.dfy`: `findMatch` as a specification function (`MatchResolver`). It has three early-exit stages, each a first-hit scan.
- `menu.dfy`: menu items and the de-duplication step (`Menu`). The step keeps the first item of each name. The method `RemoveDuplicates` is the set-then-find code.
- `user_store.dfy`: the user override store (`UserStore`). It is keyed by restaurant id and kept in key-insertion order. It covers the case-insensitive lookup by name, the allergen filter, adding an item and the key-wise import merge.
- `safety.dfy`: `getSafeItemsForRestaurant`, `hasSafeItems` and `getSafeItemsCount` as specification functions, with their properties (`Safety`).
- `allergen_db.dfy`: the `AllergenDB` class (`AllergenDb`). Its methods are proved equal to the specification functions. Its mutators update `userCustomData` and record each persisted snapshot in a ghost history.
- `ranking.dfy`: the comparator, the sort and `filterRestaurants` (`Ranking`). `Array.prototype.sort` is modelled as a stable insertion sort. It is proved to return a permutation in comparator order that keeps tied elements in input order.
- `catalog_examples.dfy`: the shipped tables applied to one concrete restaurant (`CatalogExamples`).

JavaScript details modelled explicitly:

- A `Set` of selected allergens is a sequence in insertion order. `size === 0` is `|sel| == 0`.
- `source || 'user'` treats the empty string as unset.
- `restaurant.types || []` and `a.safeItemsCount || 0` are `Option` defaults.
- `toLowerCase` changes only A-Z.
- `includes` is a prefix scan over suffixes. `IncludesAt` relates it to the usual definition.

Two behaviours of the code worth knowing (the model follows the code):

- On the curated or generic path, `getSafeItemsForRestaurant` returns an empty list when no allergen is selected. It only gathers the lists of selected allergens.
- Names are de-duplicated only on the curated or generic path. The user fallback can return two items with the same name (`CatalogExamples.UserFallbackMayRepeatNames`).

`getSafeItemsCount` takes no cuisine tags, although the call site passes them. A restaurant that qualifies only through its tags can therefore get a count that ignores them. `CatalogExamples.CountIgnoresCuisineTypes` exhibits such a case, and the model keeps this behaviour as written.

## Model

| member | source | states |
|---|---|---|
| Text.IncludesAt | allergen-db.js:144 | `includes` holds exactly when some suffix of the lower-cased name starts with the alias |
| Knowledge.CatalogWellFormed | allergen-db.js:163-170 | every name keyword of the shipped catalogue names a cuisine category that has advice |
| MatchResolver.FirstChainHit | allergen-db.js:143-147 | the returned position is the first chain with an alias in the name; `|chains|` when none has one |
| MatchResolver.FirstAdviceTag | allergen-db.js:150-160 | the returned position is the first tag whose lower-cased form is an advice key; `|types|` when none is |
| MatchResolver.FirstKeywordHit | allergen-db.js:172-179 | the returned position is the first keyword, in declaration order, that occurs in the name |
| MatchResolver.CuratedWins | allergen-db.js:142-147 | the first chain whose alias occurs in the lower-cased name is the result, whatever tags are passed |
| MatchResolver.TagAdviceWins | allergen-db.js:149-160 | with no chain hit, the first tag that is an exact advice key (after lower-casing) selects that advice |
| MatchResolver.KeywordWins | allergen-db.js:162-179 | with no chain or tag hit, the first keyword found in the name selects its advice category |
| MatchResolver.NoMatchIff | allergen-db.js:139-182 | `findMatch` returns null exactly when no chain, no tag and no keyword hits |
| Menu.FirstNamedIndex | allergen-db.js:210 | `find` by name: the position of the first item with that name |
| Menu.DedupNames | allergen-db.js:208-210 | removing duplicates loses no name, never lengthens the list and empties only an empty list |
| Menu.DedupDistinct | allergen-db.js:208-210 | after removing duplicates no two items share a name |
| Menu.DedupKeepsFirst | allergen-db.js:208-210 | every kept item is the first item of its name in the input |
| Menu.DedupKeepsOrder | allergen-db.js:209-210 | kept items follow the order in which their names first appear |
| Menu.NameList | allergen-db.js:209 | `map(i => i.name)`: same length, i-th name of the i-th item |
| Menu.RemoveDuplicates | allergen-db.js:208-210 | the Set-of-names then `find` code computes exactly the first-occurrence de-duplication |
| UserStore.WithDefaultSource | allergen-db.js:274 | an unset source becomes "user", a set source is kept, other fields are unchanged |
| UserStore.FirstRecordIndex | allergen-db.js:262-264 | the first record, in key-insertion order, whose name equals the lower-cased query |
| UserStore.FindByNameNone | allergen-db.js:262-266 | the lookup finds nothing exactly when no stored name matches case-insensitively |
| UserStore.SafeUserItemsSpec | allergen-db.js:269-275 | the fallback keeps exactly the stored items that declare no selected allergen, with source defaulted, and keeps all of them when nothing is selected |
| UserStore.SafeUserItemsOrder | allergen-db.js:269-275 | the fallback is the stored list at an increasing sequence of positions, exactly the positions whose item declares no selected allergen: stored order and repeated items are kept |
| UserStore.WithItem | allergen-db.js:245-256 | adding creates the record (name given) only under a new id, appends the item with its source defaulted and changes no other record |
| UserStore.AddedItemIsFound | allergen-db.js:245-276 | an item added under a fresh id and a new name is what the fallback then returns for that name, unless it declares a selected allergen |
| UserStore.NewKeys | allergen-db.js:287 | the imported keys absent from the current store, and no repeats when the imported keys have none |
| UserStore.NewKeyPositionsExact | allergen-db.js:287 | the positions kept for the new keys increase and are exactly those whose key is not already stored |
| UserStore.NewKeysOrder | allergen-db.js:287 | the new keys are the imported key order read at those increasing positions, so they follow the imported order |
| UserStore.Merge | allergen-db.js:287 | the spread merge: keys are the union, imported values override, the rest keep their values, the key order is the current order followed by the new keys in imported order |
| UserStore.ExportImportRoundTrip | allergen-db.js:279-287 | importing the exported snapshot of a store leaves the store unchanged |
| UserStore.ImportTwice | allergen-db.js:287 | importing the same data twice is the same as importing it once |
| Safety.GatheredSpec | allergen-db.js:197-206 | the pushed items name exactly the items listed under selected allergens, all tagged by the match's source, and are empty exactly when every selected list is missing or empty |
| Safety.MatchedSafeItems | allergen-db.js:185-211 | on a match: distinct names, exactly the selected lists' names, "menu item" with no allergens, "curated" exactly for a curated match, empty for an empty selection |
| Safety.MatchedFirstOccurrence | allergen-db.js:208-210 | on a match each item is the first pushed item of its name, in first-pushed order |
| Safety.UnknownRestaurant | allergen-db.js:188-190 | with no match and no user record of that name the list is empty, and the restaurant qualifies only when nothing is selected |
| Safety.HasSafeSpec | allergen-db.js:214-227 | `hasSafeItems` is true for an empty selection; otherwise it holds exactly when `getSafeItemsForRestaurant` returns a non-empty list |
| AllergenDb.AllergenDB.constructor | allergen-db.js:132-136 | the object holds the shipped tables and the loaded user data (empty when nothing was stored) |
| AllergenDb.AllergenDB.FindMatch | allergen-db.js:139-182 | the three early-exit loops return exactly the staged resolution |
| AllergenDb.AllergenDB.GetSafeItemsForRestaurant | allergen-db.js:185-211 | the push loop and de-duplication return exactly the specified safe-item list |
| AllergenDb.AllergenDB.HasSafeItems | allergen-db.js:214-227 | the existence test agrees with the qualification predicate |
| AllergenDb.AllergenDB.GetSafeItemsCount | allergen-db.js:230-233 | the count is the length of the list resolved with no cuisine tags |
| AllergenDb.AllergenDB.AddCustomItem | allergen-db.js:245-258 | the store becomes the store with the item added, and that new store is persisted |
| AllergenDb.AllergenDB.ExportUserData | allergen-db.js:279-281 | the export is the current store |
| AllergenDb.AllergenDB.ImportUserData | allergen-db.js:284-294 | parse failure returns false and changes nothing; success merges, persists and returns true |
| Ranking.ComparatorSign | app.js:324-336 | "may stay ahead" and "tied" are exactly comparator result <= 0 and == 0, and any two restaurants are ordered one way or the other |
| Ranking.NoLaterTrans | app.js:324-333 | the comparator's order is transitive |
| Ranking.InsertPerm | app.js:324-336 | inserting adds exactly one element |
| Ranking.InsertSorted | app.js:324-336 | inserting into a list in comparator order keeps it in comparator order |
| Ranking.InsertTies | app.js:324-336 | an inserted element goes ahead of every element it ties with, because the insertion stops at the first element it may stay ahead of |
| Ranking.StableSortSorted | app.js:324-336 | the sort returns a permutation of its input in comparator order |
| Ranking.StableSortStable | app.js:324-336 | the sort keeps tied restaurants in input order |
| Ranking.SurvivorsLength | app.js:313-321 | the filter never lengthens the list |
| Ranking.SurvivorsSound | app.js:313-321 | every survivor is a qualifying input restaurant annotated with its count |
| Ranking.SurvivorsComplete | app.js:313-321 | every qualifying input restaurant survives annotated with its count |
| Ranking.SurvivorsSpec | app.js:313-321 | a restaurant survives exactly when `hasSafeItems` holds for it with its own tags |
| Ranking.KeptPositionsIncrease | app.js:313-321 | the positions the filter keeps are input positions in strictly increasing order |
| Ranking.KeptPositionsExact | app.js:313-321 | an input position is kept exactly when its restaurant qualifies |
| Ranking.SurvivorsAtKeptPositions | app.js:313-321 | the survivors are the annotated input restaurants at the kept positions, one for one: each qualifying restaurant appears once, in input order |
| Ranking.KeptPair | app.js:313-321 | two qualifying restaurants survive in their input order |
| Ranking.RankedUnfiltered | app.js:334-337 | with nothing selected: all restaurants, nearest first, ties in input order |
| Ranking.RankedFiltered | app.js:312-333 | with a selection: exactly the qualifying restaurants, each carrying its safe-item count, larger counts first, then nearer, ties in input order |
| Ranking.StableSortKeepsPair | app.js:324-333 | two tied elements come out of the sort in the order they went in |
| Ranking.RankedKeepsInputOrder | app.js:312-333 | with a selection, two qualifying restaurants that tie on count and distance are ranked in their input order |
| Ranking.RankRestaurants | app.js:312-337 | the filter loop and the sort compute exactly the ranked list |
| Ranking.AppState.constructor | app.js:4-6 | no allergen selected and an empty result list |
| Ranking.FilterRestaurants | app.js:297-340 | the state's result list becomes the ranked list; nothing else in the state changes |
| CatalogExamples.DowntownHitsChipotle | allergen-db.js:8-9 | "Chipotle Mexican Grill Downtown" contains the alias "chipotle" once lower-cased |
| CatalogExamples.DowntownIsChipotle | allergen-db.js:139-147 | that name resolves to the curated chipotle entry whatever the tags |
| CatalogExamples.ChipotleDairyNames | allergen-db.js:11 | the chipotle entry lists six dairy-safe items |
| CatalogExamples.DowntownDairy | allergen-db.js:185-211 | selecting dairy there yields those six items, once each, all tagged "curated" |
| CatalogExamples.LolaMissesTables | allergen-db.js:8-92 | no chain alias of the table and no name keyword (the rules at allergen-db.js:163-170) occurs in "lola" |
| CatalogExamples.LolaByTag | allergen-db.js:139-170 | "Lola" tagged "mexican_restaurant" resolves to the Mexican cuisine advice |
| CatalogExamples.LolaByName | allergen-db.js:139-182 | without tags nothing in the tables matches "Lola" |
| CatalogExamples.LolaCountZero | allergen-db.js:230-233 | looked up without tags and with no user data, "Lola" has a count of 0 for dairy |
| CatalogExamples.UserFallbackMayRepeatNames | allergen-db.js:188-190 | the user fallback is not de-duplicated: two items stored for "Lola" under one name both come back |
| CatalogExamples.CountIgnoresCuisineTypes | allergen-db.js:214-233 | "Lola" tagged "mexican_restaurant" qualifies for dairy, yet its count is 0, because the count is looked up without tags |

## Left out

- Everything on the page is left out: the DOM, rendering, modals, star ratings, map and phone links. None of it affects which restaurants are kept or their order.
- Geolocation, `loadRealRestaurants`, the mock restaurant data and the places service are left out. `filterRestaurants` receives the loaded restaurant list as a parameter.
- `localStorage` and JSON are left out. The constructor takes what `loadUserData` read back (`None` when nothing was stored). `importUserData` takes the parsed value (`None` when parsing throws). Persisting is a ghost history of snapshots. Parsed JSON that is not an object of records is not modelled.
- A failed write to storage is not modelled.
- The `TypeError` is not modelled. It is thrown when a stored user item has no `allergens` array.
- The chains' `allergenWarnings` lists are left out, because no modelled operation reads them.
- JavaScript enumerates integer-like object keys before the other keys. The model enumerates user records in plain insertion order.
- Keys inherited from the object prototype are not modelled. For example, an allergen id "constructor" is absent from every table here.
- `toLowerCase` beyond ASCII (Unicode case mapping) is not modelled.
- In-place mutation is modelled on values. This covers `addCustomItem` setting the caller's item's `source`, and the filter writing `safeItemsCount` into the caller's restaurant objects. Aliasing of those objects is not captured.
- Ranking.RankRestaurants: `Array.prototype.sort` is modelled as a stable insertion sort on a sequence. The model uses only the comparator's sign. The engine's own algorithm is not modelled, and neither is its behaviour when distances are NaN.
- Restaurant distances are real numbers, not IEEE doubles.
