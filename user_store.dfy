/**
 * The user override store: records of restaurants the user described by hand, keyed by restaurant
 * id and kept in insertion order (the order `Object.values` enumerates them in).
 */
module UserStore {
  import opened Wrappers
  import opened Text
  import opened Menu

  /** A user record: the display name (matched case-insensitively) and the items entered for it. */
  datatype UserRecord = UserRecord(name: string, items: seq<MenuItem>)

  predicate Distinct(s: seq<string>) {
    forall i, j :: 0 <= i < j < |s| ==> s[i] != s[j]
  }

  /** The id-keyed object; `order` lists its keys in insertion order. */
  datatype Store = Store(order: seq<string>, records: map<string, UserRecord>) {
    ghost predicate Valid() {
      Distinct(order) && forall k :: k in records <==> k in order
    }
  }

  const Empty: Store := Store([], map[])

  /** `source || 'user'`: an unset source becomes "user". */
  function WithDefaultSource(item: MenuItem): (r: MenuItem)
    ensures r.source != ""
    ensures item.source == "" ==> r.source == "user"
    ensures item.source != "" ==> r == item
    ensures r.name == item.name && r.category == item.category && r.allergens == item.allergens
  {
    if item.source == "" then item.(source := "user") else item
  }

  /** `item.allergens.some(a => selectedAllergens.has(a))`. */
  predicate DeclaresAny(item: MenuItem, sel: seq<string>) {
    exists i :: 0 <= i < |item.allergens| && item.allergens[i] in sel
  }

  /** Position, in `order`, of the first record whose name lower-cases to `lname`; `|order|` if none. */
  function FirstRecordIndex(order: seq<string>, records: map<string, UserRecord>, lname: string): (k: nat)
    requires forall i :: 0 <= i < |order| ==> order[i] in records
    ensures k <= |order|
    ensures k < |order| ==> Lower(records[order[k]].name) == lname
    ensures forall j :: 0 <= j < k ==> Lower(records[order[j]].name) != lname
  {
    if order == [] then 0
    else if Lower(records[order[0]].name) == lname then 0
    else 1 + FirstRecordIndex(order[1..], records, lname)
  }

  /** `Object.values(userCustomData).find(d => d.name.toLowerCase() === name.toLowerCase())`. */
  function FindByName(s: Store, name: string): Option<UserRecord>
    requires s.Valid()
  {
    var k := FirstRecordIndex(s.order, s.records, Lower(name));
    if k < |s.order| then Some(s.records[s.order[k]]) else None
  }

  /** There is no record for a name exactly when no stored name equals it case-insensitively. */
  lemma FindByNameNone(s: Store, name: string)
    requires s.Valid()
    ensures FindByName(s, name) == None <==> forall id :: id in s.records ==> Lower(s.records[id].name) != Lower(name)
  {
    var k := FirstRecordIndex(s.order, s.records, Lower(name));
    if k < |s.order| {
      assert s.order[k] in s.records;
    } else {
      forall id | id in s.records ensures Lower(s.records[id].name) != Lower(name) {
        assert id in s.order;
      }
    }
  }

  /** The stored items that declare none of the selected allergens, in stored order, source defaulted. */
  function SafeUserItems(items: seq<MenuItem>, sel: seq<string>): seq<MenuItem> {
    if items == [] then []
    else
      var p, x := SafeUserItems(items[..|items| - 1], sel), items[|items| - 1];
      if DeclaresAny(x, sel) then p else p + [WithDefaultSource(x)]
  }

  /**
   * The user fallback keeps exactly the items that declare no selected allergen: each result item
   * is a stored item with its source defaulted, and each such stored item is in the result.
   */
  lemma {:induction false} SafeUserItemsSpec(items: seq<MenuItem>, sel: seq<string>)
    ensures |SafeUserItems(items, sel)| <= |items|
    ensures |sel| == 0 ==> |SafeUserItems(items, sel)| == |items|
    ensures forall y :: y in SafeUserItems(items, sel) ==>
      !DeclaresAny(y, sel) && y.source != "" && exists x :: x in items && y == WithDefaultSource(x)
    ensures forall x :: x in items && !DeclaresAny(x, sel) ==> WithDefaultSource(x) in SafeUserItems(items, sel)
  {
    if items != [] {
      var p, x := items[..|items| - 1], items[|items| - 1];
      assert items == p + [x];
      SafeUserItemsSpec(p, sel);
      assert forall z :: z in items <==> z in p || z == x;
    }
  }

  /** The positions of the stored items the fallback keeps, in stored order. */
  function SafeUserPositions(items: seq<MenuItem>, sel: seq<string>): seq<nat> {
    if items == [] then []
    else
      var n := |items| - 1;
      SafeUserPositions(items[..n], sel) + if DeclaresAny(items[n], sel) then [] else [n]
  }

  /** The kept positions are positions of `items`, in increasing order. */
  lemma {:induction false} SafeUserPositionsIncrease(items: seq<MenuItem>, sel: seq<string>)
    ensures forall k :: 0 <= k < |SafeUserPositions(items, sel)| ==> SafeUserPositions(items, sel)[k] < |items|
    ensures forall k, l :: 0 <= k < l < |SafeUserPositions(items, sel)| ==>
      SafeUserPositions(items, sel)[k] < SafeUserPositions(items, sel)[l]
  {
    if items != [] {
      SafeUserPositionsIncrease(items[..|items| - 1], sel);
    }
  }

  /** A position is kept exactly when its item declares no selected allergen. */
  lemma {:induction false} SafeUserPositionAt(items: seq<MenuItem>, sel: seq<string>, i: nat)
    requires i < |items|
    ensures !DeclaresAny(items[i], sel) <==> i in SafeUserPositions(items, sel)
  {
    var n := |items| - 1;
    var p := items[..n];
    SafeUserPositionsIncrease(p, sel);
    if i < n {
      SafeUserPositionAt(p, sel, i);
      assert p[i] == items[i];
    } else {
      assert i !in SafeUserPositions(p, sel);
    }
  }

  /** There are as many kept items as kept positions. */
  lemma {:induction false} SafeUserLength(items: seq<MenuItem>, sel: seq<string>)
    ensures |SafeUserPositions(items, sel)| == |SafeUserItems(items, sel)|
  {
    if items != [] {
      SafeUserLength(items[..|items| - 1], sel);
    }
  }

  /** The `k`-th kept item is the stored item at the `k`-th kept position, source defaulted. */
  lemma {:induction false} SafeUserItemAt(items: seq<MenuItem>, sel: seq<string>, k: nat)
    requires k < |SafeUserPositions(items, sel)|
    ensures SafeUserPositions(items, sel)[k] < |items|
    ensures k < |SafeUserItems(items, sel)| &&
      SafeUserItems(items, sel)[k] == WithDefaultSource(items[SafeUserPositions(items, sel)[k]])
  {
    var n := |items| - 1;
    var p := items[..n];
    var idx := SafeUserPositions(p, sel);
    SafeUserLength(p, sel);
    if k < |idx| {
      SafeUserItemAt(p, sel, k);
      assert items[idx[k]] == p[idx[k]];
    }
  }

  /**
   * The fallback keeps stored order and repeats: its items are the stored items at strictly
   * increasing positions, source defaulted, one for one, and those positions are exactly the
   * items that declare no selected allergen.
   */
  lemma {:induction false} SafeUserItemsOrder(items: seq<MenuItem>, sel: seq<string>)
    ensures |SafeUserPositions(items, sel)| == |SafeUserItems(items, sel)|
    ensures forall k :: 0 <= k < |SafeUserPositions(items, sel)| ==>
      SafeUserPositions(items, sel)[k] < |items| &&
      SafeUserItems(items, sel)[k] == WithDefaultSource(items[SafeUserPositions(items, sel)[k]])
    ensures forall k, l :: 0 <= k < l < |SafeUserPositions(items, sel)| ==>
      SafeUserPositions(items, sel)[k] < SafeUserPositions(items, sel)[l]
    ensures forall i :: 0 <= i < |items| ==> (!DeclaresAny(items[i], sel) <==> i in SafeUserPositions(items, sel))
  {
    SafeUserLength(items, sel);
    SafeUserPositionsIncrease(items, sel);
    forall k | 0 <= k < |SafeUserPositions(items, sel)|
      ensures SafeUserPositions(items, sel)[k] < |items| &&
        SafeUserItems(items, sel)[k] == WithDefaultSource(items[SafeUserPositions(items, sel)[k]])
    {
      SafeUserItemAt(items, sel, k);
    }
    forall i | 0 <= i < |items|
      ensures !DeclaresAny(items[i], sel) <==> i in SafeUserPositions(items, sel)
    {
      SafeUserPositionAt(items, sel, i);
    }
  }

  /** `getUserCustomItems`: the fallback list for a restaurant with no curated or generic match. */
  function UserCustomItems(s: Store, name: string, sel: seq<string>): seq<MenuItem>
    requires s.Valid()
  {
    match FindByName(s, name)
    case None => []
    case Some(record) => SafeUserItems(record.items, sel)
  }

  /** The store after `addCustomItem(id, name, item)`. */
  function WithItem(s: Store, id: string, name: string, item: MenuItem): (r: Store)
    requires s.Valid()
    ensures r.Valid()
    ensures r.records.Keys == s.records.Keys + {id}
    ensures forall k :: k in s.records && k != id ==> r.records[k] == s.records[k]
    ensures id in s.records ==> r.order == s.order && r.records[id].name == s.records[id].name
    ensures id !in s.records ==> r.order == s.order + [id] && r.records[id].name == name
    ensures r.records[id].items == (if id in s.records then s.records[id].items else []) + [WithDefaultSource(item)]
  {
    var record := if id in s.records then s.records[id] else UserRecord(name, []);
    var order := if id in s.records then s.order else s.order + [id];
    Store(order, s.records[id := record.(items := record.items + [WithDefaultSource(item)])])
  }

  /** Looking up a name nobody stored before finds the record appended for it under a fresh id. */
  lemma FreshRecordFound(s: Store, id: string, record: UserRecord)
    requires s.Valid() && id !in s.records
    requires forall k :: k in s.records ==> Lower(s.records[k].name) != Lower(record.name)
    ensures Store(s.order + [id], s.records[id := record]).Valid()
    ensures FindByName(Store(s.order + [id], s.records[id := record]), record.name) == Some(record)
  {
    var r := Store(s.order + [id], s.records[id := record]);
    assert forall i :: 0 <= i < |s.order| ==> r.order[i] == s.order[i] && r.order[i] != id;
    assert r.order[|s.order|] == id;
    var k := FirstRecordIndex(r.order, r.records, Lower(record.name));
    assert k == |s.order|;
  }

  /**
   * A record added under a fresh id for a name nobody stored before is what the fallback finds:
   * its one item is returned, source defaulted, unless it declares a selected allergen.
   */
  lemma AddedItemIsFound(s: Store, id: string, name: string, item: MenuItem, sel: seq<string>)
    requires s.Valid() && id !in s.records
    requires forall k :: k in s.records ==> Lower(s.records[k].name) != Lower(name)
    ensures UserCustomItems(WithItem(s, id, name, item), name, sel) ==
      if DeclaresAny(item, sel) then [] else [WithDefaultSource(item)]
  {
    var r := WithItem(s, id, name, item);
    FreshRecordFound(s, id, r.records[id]);
    assert r == Store(s.order + [id], s.records[id := r.records[id]]);
    var d := WithDefaultSource(item);
    assert r.records[id].items == [d];
    assert [d][..0] == [];
    assert DeclaresAny(d, sel) == DeclaresAny(item, sel);
    assert WithDefaultSource(d) == d;
    assert SafeUserItems([d], sel) == if DeclaresAny(d, sel) then [] else [d];
  }

  /** The keys of `order`, in order, that `existing` lacks. */
  function NewKeys(order: seq<string>, existing: map<string, UserRecord>): (r: seq<string>)
    ensures forall k :: k in r <==> k in order && k !in existing
    ensures Distinct(order) ==> Distinct(r)
    ensures (forall i :: 0 <= i < |order| ==> order[i] in existing) ==> r == []
  {
    if order == [] then []
    else
      var p, k := NewKeys(order[..|order| - 1], existing), order[|order| - 1];
      assert forall j :: j in order <==> j in order[..|order| - 1] || j == k by {
        assert order == order[..|order| - 1] + [k];
      }
      if k in existing then p else p + [k]
  }

  /** The positions in `order` of the keys `existing` lacks. */
  function NewKeyPositions(order: seq<string>, existing: map<string, UserRecord>): seq<nat> {
    if order == [] then []
    else
      var n := |order| - 1;
      NewKeyPositions(order[..n], existing) + if order[n] in existing then [] else [n]
  }

  /** The positions of the new keys are positions of `order`, in increasing order. */
  lemma {:induction false} NewKeyPositionsIncrease(order: seq<string>, existing: map<string, UserRecord>)
    ensures forall k :: 0 <= k < |NewKeyPositions(order, existing)| ==> NewKeyPositions(order, existing)[k] < |order|
    ensures forall k, l :: 0 <= k < l < |NewKeyPositions(order, existing)| ==>
      NewKeyPositions(order, existing)[k] < NewKeyPositions(order, existing)[l]
  {
    if order != [] {
      NewKeyPositionsIncrease(order[..|order| - 1], existing);
    }
  }

  /** A position is among the new keys' positions exactly when `existing` lacks its key. */
  lemma {:induction false} NewKeyPositionAt(order: seq<string>, existing: map<string, UserRecord>, i: nat)
    requires i < |order|
    ensures order[i] !in existing <==> i in NewKeyPositions(order, existing)
  {
    var n := |order| - 1;
    var p := order[..n];
    NewKeyPositionsIncrease(p, existing);
    if i < n {
      NewKeyPositionAt(p, existing, i);
      assert p[i] == order[i];
    } else {
      assert i !in NewKeyPositions(p, existing);
    }
  }

  /** The positions of the new keys increase, and are exactly the positions `existing` lacks. */
  lemma {:induction false} NewKeyPositionsExact(order: seq<string>, existing: map<string, UserRecord>)
    ensures forall k :: 0 <= k < |NewKeyPositions(order, existing)| ==> NewKeyPositions(order, existing)[k] < |order|
    ensures forall k, l :: 0 <= k < l < |NewKeyPositions(order, existing)| ==>
      NewKeyPositions(order, existing)[k] < NewKeyPositions(order, existing)[l]
    ensures forall i :: 0 <= i < |order| ==> (order[i] !in existing <==> i in NewKeyPositions(order, existing))
  {
    NewKeyPositionsIncrease(order, existing);
    forall i | 0 <= i < |order| ensures order[i] !in existing <==> i in NewKeyPositions(order, existing) {
      NewKeyPositionAt(order, existing, i);
    }
  }

  /** There are as many new keys as positions of new keys. */
  lemma {:induction false} NewKeysLength(order: seq<string>, existing: map<string, UserRecord>)
    ensures |NewKeyPositions(order, existing)| == |NewKeys(order, existing)|
  {
    if order != [] {
      NewKeysLength(order[..|order| - 1], existing);
    }
  }

  /** The `k`-th new key is the key of `order` at the `k`-th position of new keys. */
  lemma {:induction false} NewKeyAt(order: seq<string>, existing: map<string, UserRecord>, k: nat)
    requires k < |NewKeyPositions(order, existing)|
    ensures NewKeyPositions(order, existing)[k] < |order|
    ensures k < |NewKeys(order, existing)| && NewKeys(order, existing)[k] == order[NewKeyPositions(order, existing)[k]]
  {
    var n := |order| - 1;
    var p := order[..n];
    var idx, ks := NewKeyPositions(p, existing), NewKeys(p, existing);
    NewKeysLength(p, existing);
    assert NewKeys(order, existing) == ks + if order[n] in existing then [] else [order[n]];
    if k < |idx| {
      NewKeyAt(p, existing, k);
      assert order[idx[k]] == p[idx[k]];
    }
  }

  /**
   * The new keys come in the order `order` lists them: they are the keys at the positions
   * `NewKeyPositionsExact` describes, one for one.
   */
  lemma {:induction false} NewKeysOrder(order: seq<string>, existing: map<string, UserRecord>)
    ensures |NewKeyPositions(order, existing)| == |NewKeys(order, existing)|
    ensures forall k :: 0 <= k < |NewKeyPositions(order, existing)| ==>
      NewKeyPositions(order, existing)[k] < |order| &&
      NewKeys(order, existing)[k] == order[NewKeyPositions(order, existing)[k]]
  {
    NewKeysLength(order, existing);
    forall k | 0 <= k < |NewKeyPositions(order, existing)|
      ensures NewKeyPositions(order, existing)[k] < |order| &&
        NewKeys(order, existing)[k] == order[NewKeyPositions(order, existing)[k]]
    {
      NewKeyAt(order, existing, k);
    }
  }

  /**
   * `{ ...current, ...imported }`: imported keys override, other keys keep their value, and the
   * current keys keep their positions ahead of the newly added ones, which follow in imported
   * order (`NewKeysOrder`).
   */
  function Merge(current: Store, imported: Store): (r: Store)
    requires current.Valid() && imported.Valid()
    ensures r.Valid()
    ensures r.records.Keys == current.records.Keys + imported.records.Keys
    ensures forall k :: k in imported.records ==> r.records[k] == imported.records[k]
    ensures forall k :: k in current.records && k !in imported.records ==> r.records[k] == current.records[k]
    ensures r.order == current.order + NewKeys(imported.order, current.records)
  {
    var added := NewKeys(imported.order, current.records);
    var order := current.order + added;
    assert Distinct(order) by {
      forall i, j | 0 <= i < j < |order| ensures order[i] != order[j] {
        if j >= |current.order| && i < |current.order| {
          assert order[j] in added;
        }
      }
    }
    Store(order, current.records + imported.records)
  }

  /** Importing the exported snapshot of a store leaves it as it was. */
  lemma ExportImportRoundTrip(s: Store)
    requires s.Valid()
    ensures Merge(s, s) == s
  {
    assert NewKeys(s.order, s.records) == [];
  }

  /** Importing the same snapshot a second time changes nothing more. */
  lemma ImportTwice(current: Store, imported: Store)
    requires current.Valid() && imported.Valid()
    ensures Merge(Merge(current, imported), imported) == Merge(current, imported)
  {
    var m := Merge(current, imported);
    assert NewKeys(imported.order, m.records) == [];
    assert m.records + imported.records == m.records;
  }
}
