/**
  calculatePersonAmount, calculateItems and adjustAmount of the bill splitter:
  each named person's share of the bill with tip, and the reconciliation that
  makes the shares add up to the total.
*/
module Allocation {
  import opened Bill
  import opened Persons

  /** What one item costs `name` when the bill names `persons` people, before tip. */
  function Share(item: BillItem, name: string, persons: nat): real
    requires persons > 0
  {
    match item
    case Shared(_, price) => price / persons as real
    case Personal(_, price, person) => if person == name then price else 0.0
  }

  /** `name`'s share of all items before tip: the sum of the per-item shares. */
  function PreTipShare(items: seq<BillItem>, name: string, persons: nat): real
    requires persons > 0
  {
    if |items| == 0 then 0.0
    else Share(items[0], name, persons) + PreTipShare(items[1..], name, persons)
  }

  /**
    Item by item, a pre-tip share is the person's own personal spend plus an
    equal `1/persons` part of the shared total.
  */
  lemma {:induction false} PreTipShareFormula(items: seq<BillItem>, name: string, persons: nat)
    requires persons > 0
    ensures PreTipShare(items, name, persons)
         == PersonalSpend(items, name) + SharedTotal(items) / persons as real
  {
    if |items| > 0 {
      PreTipShareFormula(items[1..], name, persons);
      DivideSum(
        if items[0].Shared? then items[0].price else 0.0,
        SharedTotal(items[1..]),
        persons as real);
    }
  }

  lemma DivideSum(a: real, b: real, n: real)
    requires n > 0.0
    ensures (a + b) / n == a / n + b / n
  {
  }

  /** The tip factor: 10 percent scales a share by 1.1. */
  function TipFactor(tipPercentage: real): real {
    1.0 + tipPercentage / 100.0
  }

  /**
    calculatePersonAmount: `name` pays their own personal items in full, plus
    an equal `1/persons` part of every shared item, and the tip on both.
  */
  function CalculatePersonAmount(items: seq<BillItem>, tipPercentage: real, name: string, persons: nat)
    : (amount: real)
    requires persons > 0
    ensures amount
         == (PersonalSpend(items, name) + SharedTotal(items) / persons as real) * TipFactor(tipPercentage)
  {
    PreTipShareFormula(items, name, persons);
    PreTipShare(items, name, persons) * TipFactor(tipPercentage)
  }

  /** Two people with the same personal spend owe the same amount. */
  lemma EqualSpendEqualAmount(items: seq<BillItem>, tipPercentage: real, a: string, b: string, persons: nat)
    requires persons > 0
    requires PersonalSpend(items, a) == PersonalSpend(items, b)
    ensures CalculatePersonAmount(items, tipPercentage, a, persons)
         == CalculatePersonAmount(items, tipPercentage, b, persons)
  {
    PreTipShareFormula(items, a, persons);
    PreTipShareFormula(items, b, persons);
  }

  /** Someone who owns no personal item pays only their part of the shared items. */
  lemma {:induction false} NonOwnerSpendsNothing(items: seq<BillItem>, name: string)
    requires forall i :: 0 <= i < |items| ==> !Owns(items[i], name)
    ensures PersonalSpend(items, name) == 0.0
  {
    if |items| > 0 {
      assert forall i :: 0 <= i < |items| - 1 ==> items[1..][i] == items[i + 1];
      NonOwnerSpendsNothing(items[1..], name);
    }
  }

  /** The names of the rows, in order. */
  function Names(rows: seq<PersonItem>): seq<string> {
    seq(|rows|, i requires 0 <= i < |rows| => rows[i].name)
  }

  function AmountSum(rows: seq<PersonItem>): real {
    if |rows| == 0 then 0.0 else rows[0].amount + AmountSum(rows[1..])
  }

  /** One row per name, each with that name's amount (`names.map(...)`). */
  function Rows(names: seq<string>, items: seq<BillItem>, tipPercentage: real, persons: nat)
    : (rows: seq<PersonItem>)
    requires persons > 0
    ensures |rows| == |names|
    ensures forall i :: 0 <= i < |rows| ==> rows[i].name == names[i]
    ensures forall i :: 0 <= i < |rows| ==>
      rows[i].amount == CalculatePersonAmount(items, tipPercentage, names[i], persons)
  {
    if |names| == 0 then []
    else
      [PersonItem(names[0], CalculatePersonAmount(items, tipPercentage, names[0], persons))]
      + Rows(names[1..], items, tipPercentage, persons)
  }

  /**
    calculateItems: one row per scanned person, in scan order, with that
    person's amount for a headcount of all scanned persons; no rows when
    nobody is named.
  */
  function CalculateItems(items: seq<BillItem>, tipPercentage: real): (rows: seq<PersonItem>)
    ensures Names(rows) == ScanPersons(items)
    ensures forall i :: 0 <= i < |rows| ==>
      rows[i].amount == CalculatePersonAmount(items, tipPercentage, rows[i].name, |rows|)
    ensures rows == [] <==> forall i :: 0 <= i < |items| ==> items[i].Shared?
  {
    var names := ScanPersons(items);
    if |names| == 0 then [] else Rows(names, items, tipPercentage, |names|)
  }

  /**
    Conservation before reconciliation: when anyone is named, the rows
    together carry the whole subtotal scaled by the tip factor, which is the
    subtotal plus the tip before rounding.
  */
  lemma ItemsCarryTaxedSubTotal(items: seq<BillItem>, tipPercentage: real)
    requires |CalculateItems(items, tipPercentage)| > 0
    ensures AmountSum(CalculateItems(items, tipPercentage))
         == CalculateSubTotal(items) + RawTip(CalculateSubTotal(items), tipPercentage)
  {
    var names := ScanPersons(items);
    assert CalculateItems(items, tipPercentage) == Rows(names, items, tipPercentage, |names|);
    ScannedRowsCarryTaxedSubTotal(items, tipPercentage);
  }

  lemma ScannedRowsCarryTaxedSubTotal(items: seq<BillItem>, tipPercentage: real)
    requires |ScanPersons(items)| > 0
    ensures var names := ScanPersons(items);
      AmountSum(Rows(names, items, tipPercentage, |names|))
      == CalculateSubTotal(items) + RawTip(CalculateSubTotal(items), tipPercentage)
  {
    var names := ScanPersons(items);
    RowsSum(names, items, tipPercentage, |names|);
    PreTipSharesSumToSubTotal(items);
    TipFactorSplits(
      AmountSum(Rows(names, items, tipPercentage, |names|)),
      SharesSum(names, items, |names|),
      CalculateSubTotal(items),
      tipPercentage);
  }

  lemma TipFactorSplits(scaled: real, shares: real, subTotal: real, tipPercentage: real)
    requires scaled == shares * TipFactor(tipPercentage)
    requires shares == subTotal
    ensures scaled == subTotal + RawTip(subTotal, tipPercentage)
  {
  }

  // ---- conservation ----

  /** The pre-tip shares of all `names`, added up. */
  function SharesSum(names: seq<string>, items: seq<BillItem>, persons: nat): real
    requires persons > 0
  {
    if |names| == 0 then 0.0
    else PreTipShare(items, names[0], persons) + SharesSum(names[1..], items, persons)
  }

  /** What one item costs all `names` together. */
  function ItemSpread(names: seq<string>, item: BillItem, persons: nat): real
    requires persons > 0
  {
    if |names| == 0 then 0.0
    else Share(item, names[0], persons) + ItemSpread(names[1..], item, persons)
  }

  lemma {:induction false} SharesSumCons(names: seq<string>, items: seq<BillItem>, persons: nat)
    requires persons > 0 && |items| > 0
    ensures SharesSum(names, items, persons)
         == ItemSpread(names, items[0], persons) + SharesSum(names, items[1..], persons)
  {
    if |names| > 0 {
      SharesSumCons(names[1..], items, persons);
    }
  }

  /** A shared item costs everyone `price / persons`, so `persons` people pay it exactly. */
  lemma {:induction false} SharedItemSpread(names: seq<string>, item: BillItem, persons: nat)
    requires persons > 0 && item.Shared?
    ensures ItemSpread(names, item, persons) == (|names| as real) * (item.price / persons as real)
  {
    if |names| > 0 {
      SharedItemSpread(names[1..], item, persons);
    }
  }

  /** A personal item is paid once, by its owner, when the owner is among distinct names. */
  lemma {:induction false} PersonalItemSpread(names: seq<string>, item: BillItem, persons: nat)
    requires persons > 0 && item.Personal? && Distinct(names)
    ensures ItemSpread(names, item, persons) == if item.person in names then item.price else 0.0
  {
    if |names| > 0 {
      assert Distinct(names[1..]);
      PersonalItemSpread(names[1..], item, persons);
      if item.person == names[0] {
        assert item.person !in names[1..];
      } else {
        assert item.person in names <==> item.person in names[1..];
      }
    }
  }

  /**
    Every item is paid exactly once among distinct names that include every
    owner: the pre-tip shares add up to the sum of the prices.
  */
  lemma {:induction false} SharesConserve(names: seq<string>, items: seq<BillItem>)
    requires |names| > 0 && Distinct(names)
    requires forall i :: 0 <= i < |items| && items[i].Personal? ==> items[i].person in names
    ensures SharesSum(names, items, |names|) == PriceSum(items)
  {
    var n := |names|;
    if |items| > 0 {
      SharesSumCons(names, items, n);
      assert forall i :: 0 <= i < |items| - 1 ==> items[1..][i] == items[i + 1];
      SharesConserve(names, items[1..]);
      if items[0].Shared? {
        SharedItemSpread(names, items[0], n);
        assert (n as real) * (items[0].price / n as real) == items[0].price;
      } else {
        PersonalItemSpread(names, items[0], n);
      }
    } else {
      NoItemsNoShares(names, items, n);
    }
  }

  lemma {:induction false} NoItemsNoShares(names: seq<string>, items: seq<BillItem>, persons: nat)
    requires persons > 0 && |items| == 0
    ensures SharesSum(names, items, persons) == 0.0
  {
    if |names| > 0 {
      NoItemsNoShares(names[1..], items, persons);
    }
  }

  /** With at least one person named, the pre-tip shares add up to the subtotal. */
  lemma PreTipSharesSumToSubTotal(items: seq<BillItem>)
    requires |ScanPersons(items)| > 0
    ensures SharesSum(ScanPersons(items), items, |ScanPersons(items)|) == CalculateSubTotal(items)
  {
    var names := ScanPersons(items);
    forall i | 0 <= i < |items| && items[i].Personal? ensures items[i].person in names {
      assert items[i].person in OwnerSet(items);
    }
    SharesConserve(names, items);
  }

  lemma {:induction false} RowsSum(names: seq<string>, items: seq<BillItem>, tipPercentage: real, persons: nat)
    requires persons > 0
    ensures AmountSum(Rows(names, items, tipPercentage, persons))
         == SharesSum(names, items, persons) * TipFactor(tipPercentage)
  {
    if |names| > 0 {
      var rows := Rows(names, items, tipPercentage, persons);
      var a := PreTipShare(items, names[0], persons);
      var b := SharesSum(names[1..], items, persons);
      var f := TipFactor(tipPercentage);
      assert rows[0].amount == a * f;
      assert rows[1..] == Rows(names[1..], items, tipPercentage, persons);
      RowsSum(names[1..], items, tipPercentage, persons);
      assert AmountSum(rows[1..]) == b * f;
      assert AmountSum(rows) == rows[0].amount + AmountSum(rows[1..]);
      Distribute(a, b, SharesSum(names, items, persons), f);
    } else {
      assert Rows(names, items, tipPercentage, persons) == [];
      assert SharesSum(names, items, persons) == 0.0;
    }
  }

  lemma Distribute(a: real, b: real, s: real, f: real)
    requires s == a + b
    ensures s * f == a * f + b * f
  {
  }

  // ---- reconciliation ----

  /**
    adjustAmount: the whole difference between `totalAmount` and the rows' sum
    goes onto the first row; every row keeps its name and every other row its
    amount, and a non-empty list then adds up to `totalAmount` exactly.
  */
  function AdjustAmount(totalAmount: real, rows: seq<PersonItem>): (adjusted: seq<PersonItem>)
    ensures Names(adjusted) == Names(rows)
    ensures forall i :: 1 <= i < |rows| ==> adjusted[i] == rows[i]
    ensures |rows| > 0 ==> AmountSum(adjusted) == totalAmount
    ensures |rows| > 0 ==> adjusted[0].amount - rows[0].amount == totalAmount - AmountSum(rows)
  {
    if |rows| == 0 then rows
    else
      var residual := totalAmount - AmountSum(rows);
      var adjusted := rows[0 := rows[0].(amount := rows[0].amount + residual)];
      assert adjusted[1..] == rows[1..];
      adjusted
  }

  /** Adjusting rows that already add up to the total changes nothing. */
  lemma AdjustBalancedIsIdentity(totalAmount: real, rows: seq<PersonItem>)
    requires AmountSum(rows) == totalAmount
    ensures AdjustAmount(totalAmount, rows) == rows
  {
    var adjusted := AdjustAmount(totalAmount, rows);
    assert forall i :: 0 <= i < |rows| ==> adjusted[i] == rows[i];
  }
}
