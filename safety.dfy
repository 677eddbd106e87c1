/**
 * The safety engine as specification functions: the safe-item list a restaurant gets for a
 * selection of allergens, whether the restaurant qualifies at all, and the count used for ranking.
 */
module Safety {
  import opened Wrappers
  import opened Text
  import opened Knowledge
  import opened MatchResolver
  import opened Menu
  import opened UserStore

  /** `list.map(item => ({ name: item, category: 'menu item', allergens: [], source }))`. */
  function Tagged(names: seq<string>, source: string): seq<MenuItem> {
    seq(|names|, i requires 0 <= i < |names| => MenuItem(names[i], "menu item", [], source))
  }

  /** Everything pushed while walking the selection in order, before de-duplication. */
  function Gathered(t: AllergenTable, sel: seq<string>, source: string): seq<MenuItem> {
    if sel == [] then []
    else
      var a := sel[|sel| - 1];
      Gathered(t, sel[..|sel| - 1], source) + (if a in t then Tagged(t[a], source) else [])
  }

  /** The source tag of a match's items. */
  function SourceOf(m: Match): string {
    if m.Curated? then "curated" else "general advice"
  }

  /** Every item name the table lists under some selected allergen. */
  function SelectedNames(t: AllergenTable, sel: seq<string>): set<string> {
    set a, n | a in sel && a in t && n in t[a] :: n
  }

  /** Some selected allergen has a non-empty list in the table. */
  predicate SomeListNonEmpty(t: AllergenTable, sel: seq<string>) {
    exists i :: 0 <= i < |sel| && sel[i] in t && |t[sel[i]]| > 0
  }

  /** `getSafeItemsForRestaurant(name, sel, types)`. */
  function SafeItems(kb: KnowledgeBase, s: Store, name: string, sel: seq<string>, types: seq<string>): seq<MenuItem>
    requires kb.WellFormed() && s.Valid()
  {
    var m := Resolve(kb, name, types);
    if m.NoMatch? then UserCustomItems(s, name, sel)
    else Dedup(Gathered(m.safeItems, sel, SourceOf(m)))
  }

  /** `hasSafeItems(name, sel, types)`: the existence test, without building the list. */
  predicate HasSafe(kb: KnowledgeBase, s: Store, name: string, sel: seq<string>, types: seq<string>)
    requires kb.WellFormed() && s.Valid()
  {
    if |sel| == 0 then true
    else
      var m := Resolve(kb, name, types);
      if m.NoMatch? then |UserCustomItems(s, name, sel)| > 0 else SomeListNonEmpty(m.safeItems, sel)
  }

  /** `getSafeItemsCount(name, sel)`: it passes no cuisine types on, so they are always empty. */
  function SafeItemsCount(kb: KnowledgeBase, s: Store, name: string, sel: seq<string>): nat
    requires kb.WellFormed() && s.Valid()
  {
    |SafeItems(kb, s, name, sel, [])|
  }

  lemma NamesConcat(p: seq<MenuItem>, q: seq<MenuItem>)
    ensures Names(p + q) == Names(p) + Names(q)
  {
    assert forall y :: y in p + q <==> y in p || y in q;
  }

  /**
   * The gathered list names exactly the items listed under selected allergens, every entry is a
   * plain "menu item" with no allergens and the match's source tag, and it is empty exactly when
   * every selected allergen's list is missing or empty.
   */
  lemma {:induction false} GatheredSpec(t: AllergenTable, sel: seq<string>, source: string)
    ensures Names(Gathered(t, sel, source)) == SelectedNames(t, sel)
    ensures forall x :: x in Gathered(t, sel, source) ==>
      x.category == "menu item" && x.allergens == [] && x.source == source
    ensures Gathered(t, sel, source) == [] <==> !SomeListNonEmpty(t, sel)
  {
    if sel != [] {
      var p, a := sel[..|sel| - 1], sel[|sel| - 1];
      assert sel == p + [a];
      GatheredSpec(t, p, source);
      var last := if a in t then Tagged(t[a], source) else [];
      NamesConcat(Gathered(t, p, source), last);
      assert Names(last) == if a in t then set n | n in t[a] else {} by {
        if a in t {
          forall n | n in t[a] ensures n in Names(last) {
            var i :| 0 <= i < |t[a]| && t[a][i] == n;
            assert last[i] in last;
          }
        }
      }
      assert SelectedNames(t, sel) == SelectedNames(t, p) + (if a in t then set n | n in t[a] else {});
      assert SomeListNonEmpty(t, sel) <==> SomeListNonEmpty(t, p) || (a in t && |t[a]| > 0) by {
        if SomeListNonEmpty(t, sel) && !(a in t && |t[a]| > 0) {
          var i :| 0 <= i < |sel| && sel[i] in t && |t[sel[i]]| > 0;
          assert i < |p| && p[i] == sel[i];
        }
        if SomeListNonEmpty(t, p) {
          var i :| 0 <= i < |p| && p[i] in t && |t[p[i]]| > 0;
          assert sel[i] == p[i];
        }
      }
    }
  }

  /**
   * With a curated or generic match: no two items share a name; the names are exactly those listed
   * under selected allergens; every item is a "menu item" with no allergens, tagged "curated"
   * exactly when the match is curated; and an empty selection gives an empty list.
   */
  lemma MatchedSafeItems(kb: KnowledgeBase, s: Store, name: string, sel: seq<string>, types: seq<string>)
    requires kb.WellFormed() && s.Valid() && !Resolve(kb, name, types).NoMatch?
    ensures var m, r := Resolve(kb, name, types), SafeItems(kb, s, name, sel, types);
      && DistinctNames(r)
      && Names(r) == SelectedNames(m.safeItems, sel)
      && (forall x :: x in r ==>
            x.category == "menu item" && x.allergens == [] && (x.source == "curated" <==> m.Curated?))
      && (|sel| == 0 ==> r == [])
  {
    var m := Resolve(kb, name, types);
    var g := Gathered(m.safeItems, sel, SourceOf(m));
    GatheredSpec(m.safeItems, sel, SourceOf(m));
    DedupDistinct(g);
    DedupNames(g);
    DedupKeepsFirst(g);
    forall x | x in Dedup(g) ensures x in g {
      var k :| 0 <= k < |Dedup(g)| && Dedup(g)[k] == x;
    }
  }

  /**
   * With a curated or generic match, each item is the first gathered item of its name, and the
   * items come in the order in which their names were first gathered.
   */
  lemma MatchedFirstOccurrence(kb: KnowledgeBase, s: Store, name: string, sel: seq<string>, types: seq<string>)
    requires kb.WellFormed() && s.Valid() && !Resolve(kb, name, types).NoMatch?
    ensures var m, r := Resolve(kb, name, types), SafeItems(kb, s, name, sel, types);
      var g := Gathered(m.safeItems, sel, SourceOf(m));
      && (forall k :: 0 <= k < |r| ==> r[k].name in Names(g) && r[k] == g[FirstNamedIndex(g, r[k].name)])
      && (forall k, l :: 0 <= k < l < |r| ==>
            r[k].name in Names(g) && r[l].name in Names(g) &&
            FirstNamedIndex(g, r[k].name) < FirstNamedIndex(g, r[l].name))
  {
    var m := Resolve(kb, name, types);
    DedupKeepsFirst(Gathered(m.safeItems, sel, SourceOf(m)));
    DedupKeepsOrder(Gathered(m.safeItems, sel, SourceOf(m)));
  }

  /**
   * With no curated, cuisine or keyword hit and no user record under that name, the list is empty
   * and the restaurant qualifies only when nothing is selected.
   */
  lemma UnknownRestaurant(kb: KnowledgeBase, s: Store, name: string, sel: seq<string>, types: seq<string>)
    requires kb.WellFormed() && s.Valid()
    requires Resolve(kb, name, types).NoMatch?
    requires forall id :: id in s.records ==> Lower(s.records[id].name) != Lower(name)
    ensures SafeItems(kb, s, name, sel, types) == []
    ensures HasSafe(kb, s, name, sel, types) <==> |sel| == 0
  {
    FindByNameNone(s, name);
  }

  /**
   * `hasSafeItems` is true for an empty selection; otherwise it holds exactly when the list
   * `getSafeItemsForRestaurant` returns for the same arguments is non-empty.
   */
  lemma HasSafeSpec(kb: KnowledgeBase, s: Store, name: string, sel: seq<string>, types: seq<string>)
    requires kb.WellFormed() && s.Valid()
    ensures |sel| == 0 ==> HasSafe(kb, s, name, sel, types)
    ensures |sel| > 0 ==> (HasSafe(kb, s, name, sel, types) <==> SafeItems(kb, s, name, sel, types) != [])
  {
    var m := Resolve(kb, name, types);
    if !m.NoMatch? {
      var g := Gathered(m.safeItems, sel, SourceOf(m));
      GatheredSpec(m.safeItems, sel, SourceOf(m));
      DedupNames(g);
    }
  }
}
