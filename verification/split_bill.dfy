/**
  splitBill: the whole bill-splitting pipeline, from a bill description to a
  per-person settlement.
*/
module Splitter {
  import opened Wrappers
  import opened Text
  import opened DateFormat
  import opened Bill
  import opened Persons
  import opened Allocation

  /** The one failure of the pipeline: a date whose fields are not numbers. */
  datatype BillError = MalformedDate

  /**
    Formats the date, sums the items, rounds the tip, allocates per person and
    reconciles. The location passes through; the total is the subtotal plus the
    rounded tip exactly; there is one row per named person in first-seen order,
    and the rows add up to the total whenever anyone is named.
  */
  function SplitBill(input: BillInput): (r: Result<BillOutput, BillError>)
    ensures r.Failure? <==> !WellFormedDate(input.date)
    ensures r.Success? ==>
      && r.value.location == input.location
      && r.value.date == FormatDate(input.date)
      && r.value.subTotal == PriceSum(input.items)
      && r.value.tip == CalculateTip(r.value.subTotal, input.tipPercentage)
      && r.value.totalAmount == r.value.subTotal + r.value.tip
    ensures r.Success? ==>
      && Names(r.value.items) == ScanPersons(input.items)
      && (r.value.items == [] <==> forall i :: 0 <= i < |input.items| ==> input.items[i].Shared?)
      && (|r.value.items| > 0 ==> AmountSum(r.value.items) == r.value.totalAmount)
  {
    if !WellFormedDate(input.date) then Failure(MalformedDate)
    else
      var date := FormatDate(input.date);
      var location := input.location;
      var subTotal := CalculateSubTotal(input.items);
      var tip := CalculateTip(subTotal, input.tipPercentage);
      var totalAmount := subTotal + tip;
      var items := CalculateItems(input.items, input.tipPercentage);
      Success(BillOutput(date, location, subTotal, tip, totalAmount, AdjustAmount(totalAmount, items)))
  }

  /**
    The reconciliation only undoes the tip's rounding: the first person pays
    their computed amount plus (rounded tip - unrounded tip), which is at most
    five cents either way; everybody else pays exactly their computed amount.
  */
  lemma ResidualIsTipRounding(input: BillInput)
    requires WellFormedDate(input.date)
    requires |ScanPersons(input.items)| > 0
    ensures var out := SplitBill(input).value;
      var names := ScanPersons(input.items);
      var residual := out.tip - RawTip(out.subTotal, input.tipPercentage);
      && out.items[0].amount
         == CalculatePersonAmount(input.items, input.tipPercentage, names[0], |names|) + residual
      && -0.05 < residual <= 0.05
      && forall i :: 1 <= i < |out.items| ==>
           out.items[i].amount
           == CalculatePersonAmount(input.items, input.tipPercentage, names[i], |names|)
  {
    var out := SplitBill(input).value;
    var names := ScanPersons(input.items);
    var rows := CalculateItems(input.items, input.tipPercentage);
    var sub := CalculateSubTotal(input.items);
    assert out.subTotal == sub;
    ItemsCarryTaxedSubTotal(input.items, input.tipPercentage);
    assert AmountSum(rows) == sub + RawTip(sub, input.tipPercentage);
    assert out.items[0].amount - rows[0].amount == out.totalAmount - AmountSum(rows);
    assert Names(rows)[0] == rows[0].name;
    forall i | 1 <= i < |out.items|
      ensures out.items[i].amount
           == CalculatePersonAmount(input.items, input.tipPercentage, names[i], |names|)
    {
      assert Names(rows)[i] == rows[i].name;
    }
  }

  /**
    The worked example: a shared 100 and personal 50s for Alice and Bob at a
    10% tip give a subtotal of 200, a tip of 20 and 110 each.
  */
  lemma EvenSplitScenario(input: BillInput)
    requires WellFormedDate(input.date)
    requires input.tipPercentage == 10.0
    requires input.items == [Shared("A", 100.0), Personal("B", 50.0, "Alice"), Personal("C", 50.0, "Bob")]
    ensures SplitBill(input).value.subTotal == 200.0
    ensures SplitBill(input).value.tip == 20.0
    ensures SplitBill(input).value.totalAmount == 220.0
    ensures SplitBill(input).value.items == [PersonItem("Alice", 110.0), PersonItem("Bob", 110.0)]
  {
    var items := input.items;
    EvenSplitSums(items);
    EvenSplitRows(items);
    assert (200.0 * 10.0 / 100.0 * 10.0 + 0.5).Floor == 200;
    var rows := CalculateItems(items, 10.0);
    assert rows[1..] == [rows[1]];
    assert AmountSum(rows[1..]) == 110.0;
    assert AmountSum(rows) == 220.0;
    AdjustBalancedIsIdentity(220.0, rows);
  }

  lemma EvenSplitSums(items: seq<BillItem>)
    requires items == [Shared("A", 100.0), Personal("B", 50.0, "Alice"), Personal("C", 50.0, "Bob")]
    ensures PriceSum(items) == 200.0 && SharedTotal(items) == 100.0
    ensures PersonalSpend(items, "Alice") == 50.0 && PersonalSpend(items, "Bob") == 50.0
  {
    var tail := items[1..];
    assert tail == [Personal("B", 50.0, "Alice"), Personal("C", 50.0, "Bob")];
    var last := tail[1..];
    assert last == [Personal("C", 50.0, "Bob")];
    assert last[1..] == [];
    assert PersonalSpend(last, "Alice") == 0.0;
    assert PersonalSpend(last, "Bob") == 50.0;
    assert SharedTotal(last) == 0.0;
    assert PriceSum(last) == 50.0;
    assert PersonalSpend(tail, "Alice") == 50.0;
    assert PersonalSpend(tail, "Bob") == 50.0;
    assert SharedTotal(tail) == 0.0;
    assert PriceSum(tail) == 100.0;
  }

  lemma EvenSplitRows(items: seq<BillItem>)
    requires items == [Shared("A", 100.0), Personal("B", 50.0, "Alice"), Personal("C", 50.0, "Bob")]
    ensures CalculateItems(items, 10.0) == [PersonItem("Alice", 110.0), PersonItem("Bob", 110.0)]
  {
    EvenSplitSums(items);
    assert ScanPersons(items[..1]) == [];
    assert items[..2][..1] == items[..1];
    assert ScanPersons(items[..2]) == ["Alice"];
    assert items[..3][..2] == items[..2];
    assert items[..3] == items;
    assert ScanPersons(items) == ["Alice", "Bob"];
    assert CalculatePersonAmount(items, 10.0, "Alice", 2) == 110.0;
    assert CalculatePersonAmount(items, 10.0, "Bob", 2) == 110.0;
  }

  /**
    A bill whose tip needs rounding: personal items of 1.23 for Ann and 1.00
    for Bob at 10%. The unrounded tip 0.223 becomes 0.2, so the total is
    2.43; the rows' sum 2.453 is 0.023 too high and the first person, Ann,
    absorbs the difference.
  */
  lemma RoundedTipScenario(input: BillInput)
    requires WellFormedDate(input.date)
    requires input.tipPercentage == 10.0
    requires input.items == [Personal("X", 1.23, "Ann"), Personal("Y", 1.00, "Bob")]
    ensures SplitBill(input).value.subTotal == 2.23
    ensures SplitBill(input).value.tip == 0.2
    ensures SplitBill(input).value.totalAmount == 2.43
    ensures SplitBill(input).value.items == [PersonItem("Ann", 1.33), PersonItem("Bob", 1.1)]
  {
    var items := input.items;
    RoundedTipSums(items);
    RoundedTipRows(items);
    assert (2.23 * 10.0 / 100.0 * 10.0 + 0.5).Floor == 2;
    var rows := CalculateItems(items, 10.0);
    assert rows[1..] == [rows[1]];
    assert AmountSum(rows[1..]) == 1.1;
    assert AmountSum(rows) == 2.453;
    var out := SplitBill(input).value;
    assert out.items[1] == rows[1];
    assert out.items[0].amount - rows[0].amount == 2.43 - 2.453;
  }

  lemma RoundedTipSums(items: seq<BillItem>)
    requires items == [Personal("X", 1.23, "Ann"), Personal("Y", 1.00, "Bob")]
    ensures PriceSum(items) == 2.23 && SharedTotal(items) == 0.0
    ensures PersonalSpend(items, "Ann") == 1.23 && PersonalSpend(items, "Bob") == 1.0
  {
    var tail := items[1..];
    assert tail == [Personal("Y", 1.00, "Bob")];
    assert tail[1..] == [];
    assert PersonalSpend(tail, "Ann") == 0.0;
    assert PersonalSpend(tail, "Bob") == 1.0;
    assert SharedTotal(tail) == 0.0;
    assert PriceSum(tail) == 1.0;
  }

  lemma RoundedTipRows(items: seq<BillItem>)
    requires items == [Personal("X", 1.23, "Ann"), Personal("Y", 1.00, "Bob")]
    ensures CalculateItems(items, 10.0) == [PersonItem("Ann", 1.353), PersonItem("Bob", 1.1)]
  {
    RoundedTipSums(items);
    assert ScanPersons(items[..1]) == ["Ann"];
    assert items[..2] == items;
    assert ScanPersons(items) == ["Ann", "Bob"];
    assert CalculatePersonAmount(items, 10.0, "Ann", 2) == 1.353;
    assert CalculatePersonAmount(items, 10.0, "Bob", 2) == 1.1;
  }
}
