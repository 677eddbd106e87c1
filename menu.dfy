/** Menu items and the name-based de-duplication applied to gathered safe items. */
module Menu {

  /**
   * A menu item. `source` is one of "curated", "general advice", "user" or whatever a stored item
   * carries; the empty string stands for an unset (falsy) source.
   */
  datatype MenuItem = MenuItem(name: string, category: string, allergens: seq<string>, source: string)

  /** The item names occurring in `s`. */
  function Names(s: seq<MenuItem>): set<string> {
    set x | x in s :: x.name
  }

  predicate DistinctNames(s: seq<MenuItem>) {
    forall i, j :: 0 <= i < j < |s| ==> s[i].name != s[j].name
  }

  /** `s.findIndex(i => i.name === n)` for a name known to occur. */
  function FirstNamedIndex(s: seq<MenuItem>, n: string): (k: nat)
    requires n in Names(s)
    ensures k < |s| && s[k].name == n
    ensures forall j :: 0 <= j < k ==> s[j].name != n
  {
    if s[0].name == n then 0
    else
      assert n in Names(s[1..]) by {
        var x :| x in s && x.name == n;
        var i :| 0 <= i < |s| && s[i] == x;
        assert s[1..][i - 1] == x;
      }
      1 + FirstNamedIndex(s[1..], n)
  }

  /** Keep an item when no earlier item has its name: the first occurrence of each name survives. */
  function Dedup(s: seq<MenuItem>): seq<MenuItem> {
    if s == [] then []
    else
      var p := s[..|s| - 1];
      if s[|s| - 1].name in Names(p) then Dedup(p) else Dedup(p) + [s[|s| - 1]]
  }

  lemma NamesAppend(p: seq<MenuItem>, x: MenuItem)
    ensures Names(p + [x]) == Names(p) + {x.name}
  {
    assert forall y :: y in p + [x] <==> y in p || y == x;
  }

  /** De-duplication loses no name and never lengthens the list. */
  lemma {:induction false} DedupNames(s: seq<MenuItem>)
    ensures Names(Dedup(s)) == Names(s)
    ensures |Dedup(s)| <= |s|
    ensures Dedup(s) == [] <==> s == []
  {
    if s != [] {
      var p := s[..|s| - 1];
      assert s == p + [s[|s| - 1]];
      DedupNames(p);
      NamesAppend(p, s[|s| - 1]);
      NamesAppend(Dedup(p), s[|s| - 1]);
    }
  }

  /** No two items of the result share a name. */
  lemma {:induction false} DedupDistinct(s: seq<MenuItem>)
    ensures DistinctNames(Dedup(s))
  {
    if s != [] {
      var p := s[..|s| - 1];
      DedupDistinct(p);
      DedupNames(p);
      if s[|s| - 1].name !in Names(p) {
        var d := Dedup(p);
        forall i | 0 <= i < |d| ensures d[i].name != s[|s| - 1].name {
          assert d[i] in d;
        }
      }
    }
  }

  /** Extending a list does not move the first occurrence of a name already present. */
  lemma FirstNamedIndexAppend(p: seq<MenuItem>, x: MenuItem, n: string)
    requires n in Names(p)
    ensures n in Names(p + [x])
    ensures FirstNamedIndex(p + [x], n) == FirstNamedIndex(p, n)
  {
    NamesAppend(p, x);
    var k, k' := FirstNamedIndex(p, n), FirstNamedIndex(p + [x], n);
    assert (p + [x])[k] == p[k];
  }

  /** Appending an item moves no first occurrence of a name the de-duplicated prefix keeps. */
  lemma DedupPrefixIndices(p: seq<MenuItem>, x: MenuItem)
    ensures forall k :: 0 <= k < |Dedup(p)| ==>
      && Dedup(p)[k].name in Names(p)
      && Dedup(p)[k].name in Names(p + [x])
      && FirstNamedIndex(p + [x], Dedup(p)[k].name) == FirstNamedIndex(p, Dedup(p)[k].name) < |p|
  {
    DedupNames(p);
    var d := Dedup(p);
    forall k | 0 <= k < |d|
      ensures d[k].name in Names(p)
      ensures d[k].name in Names(p + [x]) && FirstNamedIndex(p + [x], d[k].name) == FirstNamedIndex(p, d[k].name)
    {
      assert d[k] in d;
      FirstNamedIndexAppend(p, x, d[k].name);
    }
  }

  /** Every kept item is the first occurrence of its name in the input. */
  lemma {:induction false} DedupKeepsFirst(s: seq<MenuItem>)
    ensures forall k :: 0 <= k < |Dedup(s)| ==>
      Dedup(s)[k].name in Names(s) && Dedup(s)[k] == s[FirstNamedIndex(s, Dedup(s)[k].name)]
  {
    if s != [] {
      var p, x := s[..|s| - 1], s[|s| - 1];
      assert s == p + [x];
      DedupKeepsFirst(p);
      DedupPrefixIndices(p, x);
      NamesAppend(p, x);
      if x.name !in Names(p) {
        assert FirstNamedIndex(s, x.name) == |p|;
      }
    }
  }

  /** `DedupKeepsFirst` at one position. */
  lemma DedupKeepsFirstAt(s: seq<MenuItem>, k: nat)
    requires k < |Dedup(s)|
    ensures Dedup(s)[k].name in Names(s) && Dedup(s)[k] == s[FirstNamedIndex(s, Dedup(s)[k].name)]
  {
    DedupKeepsFirst(s);
  }

  /** The kept items appear in the order of the first occurrences of their names. */
  lemma {:induction false} DedupKeepsOrder(s: seq<MenuItem>)
    ensures forall k, l :: 0 <= k < l < |Dedup(s)| ==>
      Dedup(s)[k].name in Names(s) && Dedup(s)[l].name in Names(s) &&
      FirstNamedIndex(s, Dedup(s)[k].name) < FirstNamedIndex(s, Dedup(s)[l].name)
  {
    if s != [] {
      var p, x := s[..|s| - 1], s[|s| - 1];
      assert s == p + [x];
      DedupKeepsOrder(p);
      DedupPrefixIndices(p, x);
      var d, r := Dedup(p), Dedup(s);
      if x.name !in Names(p) {
        NamesAppend(p, x);
        assert r == d + [x];
        assert FirstNamedIndex(s, x.name) == |p|;
      } else {
        assert r == d;
      }
      forall k, l | 0 <= k < l < |r|
        ensures r[k].name in Names(s) && r[l].name in Names(s)
        ensures FirstNamedIndex(s, r[k].name) < FirstNamedIndex(s, r[l].name)
      {
        assert r[k] == d[k];
        if l < |d| {
          assert r[l] == d[l];
        }
      }
    } else {
      assert Dedup(s) == [];
    }
  }

  /** `items.map(i => i.name)`. */
  function NameList(s: seq<MenuItem>): (r: seq<string>)
    ensures |r| == |s|
    ensures forall k :: 0 <= k < |s| ==> r[k] == s[k].name
  {
    if s == [] then [] else NameList(s[..|s| - 1]) + [s[|s| - 1].name]
  }

  lemma NameListAppend(s: seq<MenuItem>, x: MenuItem)
    ensures NameList(s + [x]) == NameList(s) + [x.name]
  {
    assert (s + [x])[..|s|] == s;
  }

  /** How the prefix of length `i + 1` extends the prefix of length `i`. */
  lemma DedupStep(s: seq<MenuItem>, i: nat)
    requires i < |s|
    ensures Names(s[..i + 1]) == Names(s[..i]) + {s[i].name}
    ensures Dedup(s[..i + 1]) ==
      if s[i].name in Names(s[..i]) then Dedup(s[..i]) else Dedup(s[..i]) + [s[i]]
  {
    assert s[..i + 1] == s[..i] + [s[i]];
    assert s[..i + 1][..i] == s[..i];
    NamesAppend(s[..i], s[i]);
  }

  /**
   * `Array.from(new Set(items.map(i => i.name))).map(name => items.find(i => i.name === name))`:
   * collect the distinct names in first-seen order, then look each one up.
   */
  method RemoveDuplicates(items: seq<MenuItem>) returns (unique: seq<MenuItem>)
    ensures unique == Dedup(items)
  {
    var names: seq<string> := [];
    var seen: set<string> := {};
    for i := 0 to |items|
      invariant seen == Names(items[..i])
      invariant names == NameList(Dedup(items[..i]))
    {
      DedupStep(items, i);
      if items[i].name !in seen {
        NameListAppend(Dedup(items[..i]), items[i]);
        names := names + [items[i].name];
        seen := seen + {items[i].name};
      }
    }
    assert items[..|items|] == items;
    var d := Dedup(items);
    unique := [];
    for k := 0 to |names|
      invariant unique == d[..k]
    {
      assert d[..k + 1] == d[..k] + [d[k]];
      DedupKeepsFirstAt(items, k);
      unique := unique + [items[FirstNamedIndex(items, names[k])]];
    }
    assert d[..|names|] == d;
  }
}
