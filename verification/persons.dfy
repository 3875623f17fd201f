/**
  scanPersons of the bill splitter: the distinct owners of personal items,
  in the order in which each is first seen.
*/
module Persons {
  import opened Bill

  /** No name occurs twice. */
  predicate Distinct(names: seq<string>) {
    forall i, j :: 0 <= i < j < |names| ==> names[i] != names[j]
  }

  /** `item` is a personal item of `name`. */
  predicate Owns(item: BillItem, name: string) {
    item.Personal? && item.person == name
  }

  /** Everyone who owns some personal item of `items`. */
  function OwnerSet(items: seq<BillItem>): set<string> {
    set i | 0 <= i < |items| && items[i].Personal? :: items[i].person
  }

  lemma OwnerSetSnoc(items: seq<BillItem>)
    requires |items| > 0
    ensures var init := items[..|items| - 1];
      OwnerSet(items) == OwnerSet(init)
        + (if items[|items| - 1].Personal? then {items[|items| - 1].person} else {})
  {
    var init := items[..|items| - 1];
    forall name | name in OwnerSet(items)
      ensures name in OwnerSet(init) || Owns(items[|items| - 1], name)
    {
      var i :| 0 <= i < |items| && items[i].Personal? && items[i].person == name;
      if i < |items| - 1 {
        assert init[i] == items[i];
      }
    }
    forall name | name in OwnerSet(init) ensures name in OwnerSet(items) {
      var i :| 0 <= i < |init| && init[i].Personal? && init[i].person == name;
      assert items[i] == init[i];
    }
  }

  lemma OwnerSetEmpty(items: seq<BillItem>)
    ensures OwnerSet(items) == {} <==> forall i :: 0 <= i < |items| ==> items[i].Shared?
  {
    if exists i :: 0 <= i < |items| && items[i].Personal? {
      var i :| 0 <= i < |items| && items[i].Personal?;
      assert items[i].person in OwnerSet(items);
    }
  }

  /**
    The scan: one entry per owner, no duplicates, nothing but owners. Shared
    items add no name, and a bill without personal items yields no names.
  */
  function ScanPersons(items: seq<BillItem>): (names: seq<string>)
    ensures Distinct(names)
    ensures forall name :: name in names <==> name in OwnerSet(items)
    ensures names == [] <==> forall i :: 0 <= i < |items| ==> items[i].Shared?
    decreases |items|
  {
    if |items| == 0 then []
    else
      var init := items[..|items| - 1];
      var last := items[|items| - 1];
      var seen := ScanPersons(init);
      OwnerSetSnoc(items);
      if last.Personal? && last.person !in seen then
        assert Owns(items[|items| - 1], last.person);
        seen + [last.person]
      else
        OwnerSetEmpty(items);
        seen
  }

  /** Items added later never reorder or remove names already scanned. */
  lemma {:induction false} ScanPersonsPrefix(a: seq<BillItem>, b: seq<BillItem>)
    ensures ScanPersons(a) <= ScanPersons(a + b)
    decreases |b|
  {
    if |b| == 0 {
      assert a + b == a;
    } else {
      var ab := a + b;
      assert ab[..|ab| - 1] == a + b[..|b| - 1];
      ScanPersonsPrefix(a, b[..|b| - 1]);
    }
  }

  /**
    First-seen order: whenever `names[i]` precedes `names[j]`, every personal
    item of `names[j]` is preceded by some personal item of `names[i]`.
  */
  lemma ScanOrderIsFirstSeen(items: seq<BillItem>, i: int, j: int, k: int)
    requires 0 <= i < j < |ScanPersons(items)|
    requires 0 <= k < |items| && Owns(items[k], ScanPersons(items)[j])
    ensures exists m :: 0 <= m < k && Owns(items[m], ScanPersons(items)[i])
  {
    var names := ScanPersons(items);
    var front := items[..k + 1];
    assert items == front + items[k + 1..];
    ScanPersonsPrefix(front, items[k + 1..]);
    var p := ScanPersons(front);
    assert front[k] == items[k];
    assert names[j] in OwnerSet(front);
    assert names[j] in p;
    var t :| 0 <= t < |p| && p[t] == names[j];
    assert p[t] == names[t];
    assert t == j;
    assert p[i] == names[i];
    assert names[i] in OwnerSet(front);
    var m :| 0 <= m < |front| && front[m].Personal? && front[m].person == names[i];
    assert items[m] == front[m];
    assert m != k;
  }
}
