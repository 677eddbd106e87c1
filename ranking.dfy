/**
 * Ranking (`filterRestaurants`): with no allergen selected, every restaurant sorted by distance;
 * otherwise only the restaurants with safe items, each annotated with its safe-item count, sorted
 * by count (most first) and then by distance. `Array.prototype.sort` is a stable sort.
 */
module Ranking {
  import opened Wrappers
  import opened Knowledge
  import opened UserStore
  import opened Safety
  import opened AllergenDb

  /** The fields of a restaurant the ranking reads or writes. */
  datatype Restaurant = Restaurant(
    id: string,
    name: string,
    types: Option<seq<string>>,
    distance: real,
    safeItemsCount: Option<int>)

  /** `restaurant.types || []`. */
  function TypesOf(r: Restaurant): seq<string> {
    r.types.GetOr([])
  }

  /** `restaurant.safeItemsCount || 0`. */
  function CountOf(r: Restaurant): int {
    r.safeItemsCount.GetOr(0)
  }

  /**
   * The comparator handed to `sort`: a negative result puts `a` first. With `bySafety` it is the
   * count comparator (larger count first, then nearer first), otherwise the distance comparator.
   */
  function Compare(a: Restaurant, b: Restaurant, bySafety: bool): real {
    if bySafety && CountOf(a) != CountOf(b) then (CountOf(b) - CountOf(a)) as real
    else a.distance - b.distance
  }

  /**
   * The sort only consults the sign of the comparator: `a` may stay ahead of `b` exactly when the
   * comparator does not ask for `b` to come first.
   */
  predicate NoLater(a: Restaurant, b: Restaurant, bySafety: bool) {
    if bySafety && CountOf(a) != CountOf(b) then CountOf(a) > CountOf(b) else a.distance <= b.distance
  }

  /** The comparator cannot tell `a` and `b` apart. */
  predicate Tied(a: Restaurant, b: Restaurant, bySafety: bool) {
    NoLater(a, b, bySafety) && NoLater(b, a, bySafety)
  }

  /** `NoLater` and `Tied` read the comparator's sign, and so are a total preorder and its equivalence. */
  lemma ComparatorSign(a: Restaurant, b: Restaurant, bySafety: bool)
    ensures NoLater(a, b, bySafety) <==> Compare(a, b, bySafety) <= 0.0
    ensures Tied(a, b, bySafety) <==> Compare(a, b, bySafety) == 0.0
    ensures NoLater(a, b, bySafety) || NoLater(b, a, bySafety)
  {
  }

  /** "Goes no later than" is transitive. */
  lemma NoLaterTrans(a: Restaurant, b: Restaurant, c: Restaurant, bySafety: bool)
    requires NoLater(a, b, bySafety) && NoLater(b, c, bySafety)
    ensures NoLater(a, c, bySafety)
  {
  }

  /** `s` is in comparator order: no later element should come before an earlier one. */
  predicate Sorted(s: seq<Restaurant>, bySafety: bool) {
    forall i, j :: 0 <= i < j < |s| ==> NoLater(s[i], s[j], bySafety)
  }

  /** Insert `x` before the first element it may go ahead of. */
  function Insert(x: Restaurant, s: seq<Restaurant>, bySafety: bool): seq<Restaurant> {
    if s == [] || NoLater(x, s[0], bySafety) then [x] + s
    else [s[0]] + Insert(x, s[1..], bySafety)
  }

  /** The stable sort `Array.prototype.sort` performs with the comparator above. */
  function StableSort(s: seq<Restaurant>, bySafety: bool): seq<Restaurant> {
    if s == [] then [] else Insert(s[0], StableSort(s[1..], bySafety), bySafety)
  }

  /** The elements of `s` the comparator cannot tell apart from `e`, in their order in `s`. */
  function Ties(s: seq<Restaurant>, e: Restaurant, bySafety: bool): seq<Restaurant> {
    if s == [] then [] else (if Tied(s[0], e, bySafety) then [s[0]] else []) + Ties(s[1..], e, bySafety)
  }

  /** Inserting adds exactly `x`. */
  lemma {:induction false} InsertPerm(x: Restaurant, s: seq<Restaurant>, bySafety: bool)
    ensures multiset(Insert(x, s, bySafety)) == multiset(s) + multiset{x}
  {
    if s != [] && !NoLater(x, s[0], bySafety) {
      InsertPerm(x, s[1..], bySafety);
      assert s == [s[0]] + s[1..];
    }
  }

  /** Inserting into a sorted list keeps it sorted. */
  lemma {:induction false} InsertSorted(x: Restaurant, s: seq<Restaurant>, bySafety: bool)
    requires Sorted(s, bySafety)
    ensures Sorted(Insert(x, s, bySafety), bySafety)
  {
    var r := Insert(x, s, bySafety);
    if s == [] || NoLater(x, s[0], bySafety) {
      forall i, j | 0 <= i < j < |r| ensures NoLater(r[i], r[j], bySafety) {
        if i == 0 && j > 1 {
          NoLaterTrans(x, s[0], s[j - 1], bySafety);
        }
      }
    } else {
      var rest := Insert(x, s[1..], bySafety);
      InsertSorted(x, s[1..], bySafety);
      InsertPerm(x, s[1..], bySafety);
      forall k | 0 <= k < |rest| ensures NoLater(s[0], rest[k], bySafety) {
        assert rest[k] in multiset(rest);
        if rest[k] != x {
          var m :| 0 <= m < |s[1..]| && s[1..][m] == rest[k];
          assert s[m + 1] == rest[k];
        }
      }
    }
  }

  /** `x` lands ahead of every element that ties with it, and the other elements keep their order. */
  lemma {:induction false} InsertTies(x: Restaurant, s: seq<Restaurant>, e: Restaurant, bySafety: bool)
    requires Sorted(s, bySafety)
    ensures Ties(Insert(x, s, bySafety), e, bySafety) ==
      (if Tied(x, e, bySafety) then [x] else []) + Ties(s, e, bySafety)
  {
    if s == [] || NoLater(x, s[0], bySafety) {
      assert ([x] + s)[1..] == s;
    } else {
      InsertTies(x, s[1..], e, bySafety);
      assert ([s[0]] + Insert(x, s[1..], bySafety))[1..] == Insert(x, s[1..], bySafety);
    }
  }

  /** The sort returns a permutation of its input, in comparator order. */
  lemma {:induction false} StableSortSorted(s: seq<Restaurant>, bySafety: bool)
    ensures Sorted(StableSort(s, bySafety), bySafety)
    ensures multiset(StableSort(s, bySafety)) == multiset(s)
    ensures |StableSort(s, bySafety)| == |s|
  {
    if s != [] {
      var t := StableSort(s[1..], bySafety);
      StableSortSorted(s[1..], bySafety);
      InsertSorted(s[0], t, bySafety);
      InsertPerm(s[0], t, bySafety);
      assert s == [s[0]] + s[1..];
      assert |multiset(StableSort(s, bySafety))| == |multiset(s)|;
    }
  }

  /** The sort is stable: the elements that tie with any given `e` keep their input order. */
  lemma {:induction false} StableSortStable(s: seq<Restaurant>, e: Restaurant, bySafety: bool)
    ensures Ties(StableSort(s, bySafety), e, bySafety) == Ties(s, e, bySafety)
  {
    if s != [] {
      var t := StableSort(s[1..], bySafety);
      StableSortStable(s[1..], e, bySafety);
      StableSortSorted(s[1..], bySafety);
      InsertTies(s[0], t, e, bySafety);
    }
  }

  /** A surviving restaurant, with `safeItemsCount` set as the filter callback sets it. */
  function Annotate(kb: KnowledgeBase, st: Store, r: Restaurant, sel: seq<string>): Restaurant
    requires kb.WellFormed() && st.Valid()
  {
    r.(safeItemsCount := Some(SafeItemsCount(kb, st, r.name, sel)))
  }

  /** The `restaurants.filter(...)` pass: qualifying restaurants, annotated, in input order. */
  function Survivors(kb: KnowledgeBase, st: Store, rs: seq<Restaurant>, sel: seq<string>): seq<Restaurant>
    requires kb.WellFormed() && st.Valid()
  {
    if rs == [] then []
    else
      var p, r := Survivors(kb, st, rs[..|rs| - 1], sel), rs[|rs| - 1];
      if Qualifies(kb, st, r, sel) then p + [Annotate(kb, st, r, sel)] else p
  }

  /** `restaurant => allergenDB.hasSafeItems(restaurant.name, sel, restaurant.types || [])`. */
  predicate Qualifies(kb: KnowledgeBase, st: Store, r: Restaurant, sel: seq<string>)
    requires kb.WellFormed() && st.Valid()
  {
    HasSafe(kb, st, r.name, sel, TypesOf(r))
  }

  /** Filtering never lengthens the list. */
  lemma {:induction false} SurvivorsLength(kb: KnowledgeBase, st: Store, rs: seq<Restaurant>, sel: seq<string>)
    requires kb.WellFormed() && st.Valid()
    ensures |Survivors(kb, st, rs, sel)| <= |rs|
  {
    if rs != [] {
      SurvivorsLength(kb, st, rs[..|rs| - 1], sel);
    }
  }

  /** Every survivor is a qualifying input restaurant carrying its count. */
  lemma {:induction false} SurvivorsSound(kb: KnowledgeBase, st: Store, rs: seq<Restaurant>, sel: seq<string>, x: Restaurant)
    requires kb.WellFormed() && st.Valid()
    requires x in Survivors(kb, st, rs, sel)
    ensures exists i :: 0 <= i < |rs| && Qualifies(kb, st, rs[i], sel) && x == Annotate(kb, st, rs[i], sel)
  {
    var p := rs[..|rs| - 1];
    if x in Survivors(kb, st, p, sel) {
      SurvivorsSound(kb, st, p, sel, x);
      var i :| 0 <= i < |p| && Qualifies(kb, st, p[i], sel) && x == Annotate(kb, st, p[i], sel);
      assert rs[i] == p[i];
    }
  }

  /** Every qualifying input restaurant survives, carrying its count. */
  lemma {:induction false} SurvivorsComplete(kb: KnowledgeBase, st: Store, rs: seq<Restaurant>, sel: seq<string>, i: nat)
    requires kb.WellFormed() && st.Valid()
    requires i < |rs| && Qualifies(kb, st, rs[i], sel)
    ensures Annotate(kb, st, rs[i], sel) in Survivors(kb, st, rs, sel)
  {
    var p := rs[..|rs| - 1];
    var v := Survivors(kb, st, p, sel);
    assert v <= Survivors(kb, st, rs, sel);
    if i < |p| {
      assert p[i] == rs[i];
      SurvivorsComplete(kb, st, p, sel, i);
    } else {
      assert Survivors(kb, st, rs, sel) == v + [Annotate(kb, st, rs[i], sel)];
    }
  }

  /**
   * A restaurant survives exactly when `hasSafeItems` holds for it with its own cuisine types, and
   * then carries the count `getSafeItemsCount` gives for its name.
   */
  lemma SurvivorsSpec(kb: KnowledgeBase, st: Store, rs: seq<Restaurant>, sel: seq<string>)
    requires kb.WellFormed() && st.Valid()
    ensures |Survivors(kb, st, rs, sel)| <= |rs|
    ensures forall x :: x in Survivors(kb, st, rs, sel) <==>
      exists i :: 0 <= i < |rs| && Qualifies(kb, st, rs[i], sel) && x == Annotate(kb, st, rs[i], sel)
  {
    SurvivorsLength(kb, st, rs, sel);
    forall x | x in Survivors(kb, st, rs, sel)
      ensures exists i :: 0 <= i < |rs| && Qualifies(kb, st, rs[i], sel) && x == Annotate(kb, st, rs[i], sel)
    {
      SurvivorsSound(kb, st, rs, sel, x);
    }
    forall i | 0 <= i < |rs| && Qualifies(kb, st, rs[i], sel)
      ensures Annotate(kb, st, rs[i], sel) in Survivors(kb, st, rs, sel)
    {
      SurvivorsComplete(kb, st, rs, sel, i);
    }
  }

  /** The input positions of the restaurants the filter keeps, in input order. */
  function KeptPositions(kb: KnowledgeBase, st: Store, rs: seq<Restaurant>, sel: seq<string>): seq<nat>
    requires kb.WellFormed() && st.Valid()
  {
    if rs == [] then []
    else
      var n := |rs| - 1;
      KeptPositions(kb, st, rs[..n], sel) + if Qualifies(kb, st, rs[n], sel) then [n] else []
  }

  /** Each input position is kept at most once, and kept positions increase. */
  lemma {:induction false} KeptPositionsIncrease(kb: KnowledgeBase, st: Store, rs: seq<Restaurant>, sel: seq<string>)
    requires kb.WellFormed() && st.Valid()
    ensures forall k :: 0 <= k < |KeptPositions(kb, st, rs, sel)| ==> KeptPositions(kb, st, rs, sel)[k] < |rs|
    ensures forall k, l :: 0 <= k < l < |KeptPositions(kb, st, rs, sel)| ==>
      KeptPositions(kb, st, rs, sel)[k] < KeptPositions(kb, st, rs, sel)[l]
  {
    if rs != [] {
      KeptPositionsIncrease(kb, st, rs[..|rs| - 1], sel);
    }
  }

  /** The kept positions are exactly those of the qualifying restaurants. */
  lemma {:induction false} KeptPositionsExact(kb: KnowledgeBase, st: Store, rs: seq<Restaurant>, sel: seq<string>, i: nat)
    requires kb.WellFormed() && st.Valid()
    requires i < |rs|
    ensures Qualifies(kb, st, rs[i], sel) <==> i in KeptPositions(kb, st, rs, sel)
  {
    var n := |rs| - 1;
    var p := rs[..n];
    KeptPositionsIncrease(kb, st, p, sel);
    if i < n {
      assert p[i] == rs[i];
      KeptPositionsExact(kb, st, p, sel, i);
    }
  }

  /** The survivors are the annotated restaurants at the kept positions, one for one. */
  lemma {:induction false} SurvivorsAtKeptPositions(kb: KnowledgeBase, st: Store, rs: seq<Restaurant>, sel: seq<string>)
    requires kb.WellFormed() && st.Valid()
    ensures |KeptPositions(kb, st, rs, sel)| == |Survivors(kb, st, rs, sel)|
    ensures forall k :: 0 <= k < |Survivors(kb, st, rs, sel)| ==>
      KeptPositions(kb, st, rs, sel)[k] < |rs| &&
      Survivors(kb, st, rs, sel)[k] == Annotate(kb, st, rs[KeptPositions(kb, st, rs, sel)[k]], sel)
  {
    KeptPositionsIncrease(kb, st, rs, sel);
    if rs != [] {
      var n := |rs| - 1;
      var p := rs[..n];
      SurvivorsAtKeptPositions(kb, st, p, sel);
      var idx, v := KeptPositions(kb, st, p, sel), Survivors(kb, st, p, sel);
      forall k | 0 <= k < |idx| ensures rs[idx[k]] == p[idx[k]] {
        KeptPositionsIncrease(kb, st, p, sel);
      }
    }
  }

  /** A tied head heads `Ties`. */
  lemma TiesKeep(s: seq<Restaurant>, e: Restaurant, bySafety: bool)
    requires s != [] && Tied(s[0], e, bySafety)
    ensures Ties(s, e, bySafety) == [s[0]] + Ties(s[1..], e, bySafety)
  {
  }

  /** An untied head contributes nothing to `Ties`. */
  lemma TiesSkip(s: seq<Restaurant>, e: Restaurant, bySafety: bool)
    requires s != [] && !Tied(s[0], e, bySafety)
    ensures Ties(s, e, bySafety) == Ties(s[1..], e, bySafety)
  {
    assert [] + Ties(s[1..], e, bySafety) == Ties(s[1..], e, bySafety);
  }

  /** Where an element of `s` that ties with `e` sits in `Ties(s, e)`. */
  lemma {:induction false} TiesOf(s: seq<Restaurant>, e: Restaurant, bySafety: bool, q: nat) returns (q': nat)
    requires q < |s| && Tied(s[q], e, bySafety)
    ensures q' < |Ties(s, e, bySafety)| && Ties(s, e, bySafety)[q'] == s[q]
  {
    if q == 0 {
      q' := 0;
    } else {
      var h := if Tied(s[0], e, bySafety) then 1 else 0;
      var q1 := TiesOf(s[1..], e, bySafety, q - 1);
      q' := q1 + h;
    }
  }

  /** Two elements of `s` that tie with `e` keep their relative order in `Ties(s, e)`. */
  lemma {:induction false} TiesOfPair(s: seq<Restaurant>, e: Restaurant, bySafety: bool, p: nat, q: nat)
    returns (p': nat, q': nat)
    requires p < q < |s| && Tied(s[p], e, bySafety) && Tied(s[q], e, bySafety)
    ensures p' < q' < |Ties(s, e, bySafety)|
    ensures Ties(s, e, bySafety)[p'] == s[p] && Ties(s, e, bySafety)[q'] == s[q]
  {
    var r := s[1..];
    if p == 0 {
      TiesKeep(s, e, bySafety);
      var q1 := TiesOf(r, e, bySafety, q - 1);
      p', q' := 0, q1 + 1;
    } else {
      assert r[p - 1] == s[p] && r[q - 1] == s[q];
      var p1, q1 := TiesOfPair(r, e, bySafety, p - 1, q - 1);
      if Tied(s[0], e, bySafety) {
        TiesKeep(s, e, bySafety);
        p', q' := p1 + 1, q1 + 1;
      } else {
        TiesSkip(s, e, bySafety);
        p', q' := p1, q1;
      }
    }
  }

  /** Where an element of `Ties(s, e)` sits in `s`. */
  lemma {:induction false} TiesFrom(s: seq<Restaurant>, e: Restaurant, bySafety: bool, q': nat) returns (q: nat)
    requires q' < |Ties(s, e, bySafety)|
    ensures q < |s| && s[q] == Ties(s, e, bySafety)[q']
  {
    if Tied(s[0], e, bySafety) && q' == 0 {
      q := 0;
    } else {
      var h := if Tied(s[0], e, bySafety) then 1 else 0;
      var q1 := TiesFrom(s[1..], e, bySafety, q' - h);
      q := q1 + 1;
    }
  }

  /** Two elements of `Ties(s, e)` come from positions of `s` in the same order. */
  lemma {:induction false} TiesFromPair(s: seq<Restaurant>, e: Restaurant, bySafety: bool, p': nat, q': nat)
    returns (p: nat, q: nat)
    requires p' < q' < |Ties(s, e, bySafety)|
    ensures p < q < |s| && s[p] == Ties(s, e, bySafety)[p'] && s[q] == Ties(s, e, bySafety)[q']
    decreases |s|, 2
  {
    if Tied(s[0], e, bySafety) {
      TiesKeep(s, e, bySafety);
      p, q := TiesFromPairHead(s, e, bySafety, p', q');
    } else {
      TiesSkip(s, e, bySafety);
      p, q := TiesFromPairTail(s, e, bySafety, p', q');
    }
  }

  /** `TiesFromPair` for the tail of `s`, with the positions moved to `s`. */
  lemma {:induction false} TiesFromPairTail(s: seq<Restaurant>, e: Restaurant, bySafety: bool, p': nat, q': nat)
    returns (p: nat, q: nat)
    requires s != [] && p' < q' < |Ties(s[1..], e, bySafety)|
    ensures p < q < |s| && s[p] == Ties(s[1..], e, bySafety)[p'] && s[q] == Ties(s[1..], e, bySafety)[q']
    decreases |s|, 0
  {
    var r := s[1..];
    var p1, q1 := TiesFromPair(r, e, bySafety, p', q');
    p, q := p1 + 1, q1 + 1;
    assert s[p] == r[p1] && s[q] == r[q1];
  }

  /** `TiesFromPair` when the head of `s` ties with `e`, so that it heads `Ties(s, e)`. */
  lemma {:induction false} TiesFromPairHead(s: seq<Restaurant>, e: Restaurant, bySafety: bool, p': nat, q': nat)
    returns (p: nat, q: nat)
    requires s != [] && p' < q' <= |Ties(s[1..], e, bySafety)|
    ensures var t := [s[0]] + Ties(s[1..], e, bySafety);
      p < q < |s| && s[p] == t[p'] && s[q] == t[q']
    decreases |s|, 1
  {
    if p' == 0 {
      var q1 := TiesFrom(s[1..], e, bySafety, q' - 1);
      p, q := 0, q1 + 1;
      assert s[q] == s[1..][q1];
    } else {
      p, q := TiesFromPairTail(s, e, bySafety, p' - 1, q' - 1);
    }
  }

  /** What `filterRestaurants` leaves in `state.filteredRestaurants` for a given list. */
  function Ranked(kb: KnowledgeBase, st: Store, rs: seq<Restaurant>, sel: seq<string>): seq<Restaurant>
    requires kb.WellFormed() && st.Valid()
  {
    if |sel| == 0 then StableSort(rs, false) else StableSort(Survivors(kb, st, rs, sel), true)
  }

  /**
   * With nothing selected: every restaurant, each as often as in the input, nearest first, and
   * restaurants at the same distance as `e` in input order.
   */
  lemma RankedUnfiltered(kb: KnowledgeBase, st: Store, rs: seq<Restaurant>, sel: seq<string>, e: Restaurant)
    requires kb.WellFormed() && st.Valid() && |sel| == 0
    ensures var r := Ranked(kb, st, rs, sel);
      && |r| == |rs|
      && multiset(r) == multiset(rs)
      && (forall i, j :: 0 <= i < j < |r| ==> r[i].distance <= r[j].distance)
      && Ties(r, e, false) == Ties(rs, e, false)
  {
    StableSortSorted(rs, false);
    StableSortStable(rs, e, false);
  }

  /**
   * With a selection: exactly the qualifying restaurants, each as often as among the survivors
   * (once per qualifying input position, by `SurvivorsAtKeptPositions`) and annotated with its
   * count; larger counts first, then nearer first; restaurants that tie with `e` on both keep
   * their order among the survivors; never more restaurants than came in.
   */
  lemma RankedFiltered(kb: KnowledgeBase, st: Store, rs: seq<Restaurant>, sel: seq<string>, e: Restaurant)
    requires kb.WellFormed() && st.Valid() && |sel| > 0
    ensures var r, v := Ranked(kb, st, rs, sel), Survivors(kb, st, rs, sel);
      && |r| <= |rs|
      && multiset(r) == multiset(v)
      && (forall x :: x in r <==>
            exists i :: 0 <= i < |rs| && Qualifies(kb, st, rs[i], sel) && x == Annotate(kb, st, rs[i], sel))
      && (forall x :: x in r ==> x.safeItemsCount == Some(SafeItemsCount(kb, st, x.name, sel)))
      && (forall i, j :: 0 <= i < j < |r| ==>
            CountOf(r[i]) > CountOf(r[j]) || (CountOf(r[i]) == CountOf(r[j]) && r[i].distance <= r[j].distance))
      && Ties(r, e, true) == Ties(v, e, true)
  {
    var v := Survivors(kb, st, rs, sel);
    StableSortSorted(v, true);
    StableSortStable(v, e, true);
    SurvivorsSpec(kb, st, rs, sel);
    var r := StableSort(v, true);
    forall x ensures x in r <==> x in v {
      assert x in r <==> x in multiset(r);
    }
  }

  /** Two elements that tie keep their relative order through the sort. */
  lemma StableSortKeepsPair(s: seq<Restaurant>, bySafety: bool, i: nat, j: nat) returns (p: nat, q: nat)
    requires i < j < |s| && Tied(s[i], s[j], bySafety)
    ensures var r := StableSort(s, bySafety); p < q < |r| && r[p] == s[i] && r[q] == s[j]
  {
    var p', q' := TiesOfPair(s, s[i], bySafety, i, j);
    StableSortStable(s, s[i], bySafety);
    p, q := TiesFromPair(StableSort(s, bySafety), s[i], bySafety, p', q');
  }

  /** Where a qualifying input position sits among the kept positions. */
  lemma KeptIndexOf(kb: KnowledgeBase, st: Store, rs: seq<Restaurant>, sel: seq<string>, i: nat) returns (k: nat)
    requires kb.WellFormed() && st.Valid()
    requires i < |rs| && Qualifies(kb, st, rs[i], sel)
    ensures k < |KeptPositions(kb, st, rs, sel)| && KeptPositions(kb, st, rs, sel)[k] == i
  {
    KeptPositionsExact(kb, st, rs, sel, i);
    var idx := KeptPositions(kb, st, rs, sel);
    k :| 0 <= k < |idx| && idx[k] == i;
  }

  /** The `k`-th survivor is the annotated restaurant at the `k`-th kept position. */
  lemma SurvivorAt(kb: KnowledgeBase, st: Store, rs: seq<Restaurant>, sel: seq<string>, k: nat)
    requires kb.WellFormed() && st.Valid()
    requires k < |KeptPositions(kb, st, rs, sel)|
    ensures KeptPositions(kb, st, rs, sel)[k] < |rs|
    ensures k < |Survivors(kb, st, rs, sel)| &&
      Survivors(kb, st, rs, sel)[k] == Annotate(kb, st, rs[KeptPositions(kb, st, rs, sel)[k]], sel)
  {
    SurvivorsAtKeptPositions(kb, st, rs, sel);
  }

  /** Two qualifying input positions `i < j` are kept at survivor positions `ki < kj`. */
  lemma KeptPair(kb: KnowledgeBase, st: Store, rs: seq<Restaurant>, sel: seq<string>, i: nat, j: nat)
    returns (ki: nat, kj: nat)
    requires kb.WellFormed() && st.Valid()
    requires i < j < |rs| && Qualifies(kb, st, rs[i], sel) && Qualifies(kb, st, rs[j], sel)
    ensures var v := Survivors(kb, st, rs, sel);
      ki < kj < |v| && v[ki] == Annotate(kb, st, rs[i], sel) && v[kj] == Annotate(kb, st, rs[j], sel)
  {
    var idx := KeptPositions(kb, st, rs, sel);
    ki := KeptIndexOf(kb, st, rs, sel, i);
    kj := KeptIndexOf(kb, st, rs, sel, j);
    KeptPositionsIncrease(kb, st, rs, sel);
    assert ki < kj;
    SurvivorAt(kb, st, rs, sel, ki);
    SurvivorAt(kb, st, rs, sel, kj);
  }

  /**
   * Stability against the input: two qualifying restaurants that the count-then-distance
   * comparator cannot tell apart come out in the order they came in.
   */
  lemma RankedKeepsInputOrder(kb: KnowledgeBase, st: Store, rs: seq<Restaurant>, sel: seq<string>, i: nat, j: nat)
    returns (p: nat, q: nat)
    requires kb.WellFormed() && st.Valid() && |sel| > 0
    requires i < j < |rs| && Qualifies(kb, st, rs[i], sel) && Qualifies(kb, st, rs[j], sel)
    requires Tied(Annotate(kb, st, rs[i], sel), Annotate(kb, st, rs[j], sel), true)
    ensures var r := Ranked(kb, st, rs, sel);
      p < q < |r| && r[p] == Annotate(kb, st, rs[i], sel) && r[q] == Annotate(kb, st, rs[j], sel)
  {
    var ki, kj := KeptPair(kb, st, rs, sel, i, j);
    p, q := StableSortKeepsPair(Survivors(kb, st, rs, sel), true, ki, kj);
  }

  /** The filter, annotate and sort steps of `filterRestaurants`, on a list already loaded. */
  method RankRestaurants(db: AllergenDB, restaurants: seq<Restaurant>, selectedAllergens: seq<string>)
    returns (ranked: seq<Restaurant>)
    requires db.Valid()
    ensures ranked == Ranked(db.kb, db.userCustomData, restaurants, selectedAllergens)
  {
    var rs := restaurants;
    if |selectedAllergens| > 0 {
      var kept: seq<Restaurant> := [];
      for i := 0 to |rs|
        invariant kept == Survivors(db.kb, db.userCustomData, rs[..i], selectedAllergens)
      {
        assert rs[..i + 1][..i] == rs[..i];
        var restaurant := rs[i];
        var types := TypesOf(restaurant);
        var hasSafeItems := db.HasSafeItems(restaurant.name, selectedAllergens, types);
        if hasSafeItems {
          // the call site also passes `types`, which getSafeItemsCount does not take
          var count := db.GetSafeItemsCount(restaurant.name, selectedAllergens);
          kept := kept + [restaurant.(safeItemsCount := Some(count))];
        }
      }
      assert rs[..|rs|] == rs;
      rs := StableSort(kept, true);
    } else {
      rs := StableSort(rs, false);
    }
    ranked := rs;
  }

  /** The part of the application state the ranking reads and writes. */
  class AppState {
    var selectedAllergens: seq<string>
    var filteredRestaurants: seq<Restaurant>

    constructor ()
      ensures selectedAllergens == [] && filteredRestaurants == []
    {
      selectedAllergens := [];
      filteredRestaurants := [];
    }
  }

  /** `filterRestaurants` with the restaurant list given: rank it and store the result in the state. */
  method FilterRestaurants(db: AllergenDB, state: AppState, restaurants: seq<Restaurant>)
    requires db.Valid()
    modifies state`filteredRestaurants
    ensures state.filteredRestaurants == Ranked(db.kb, db.userCustomData, restaurants, state.selectedAllergens)
  {
    var ranked := RankRestaurants(db, restaurants, state.selectedAllergens);
    state.filteredRestaurants := ranked;
  }
}
