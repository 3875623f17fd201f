/**
  The bill data model and the first pipeline steps of the bill splitter:
  the subtotal and the rounded tip. Amounts are exact reals.
*/
module Bill {

  /**
    A line of the bill. A shared item is paid by everyone named in the bill;
    a personal item is paid by its `person` alone.
  */
  datatype BillItem =
    | Shared(name: string, price: real)
    | Personal(name: string, price: real, person: string)

  datatype BillInput = BillInput(
    date: string,
    location: string,
    tipPercentage: real,
    items: seq<BillItem>)

  datatype PersonItem = PersonItem(name: string, amount: real)

  datatype BillOutput = BillOutput(
    date: string,
    location: string,
    subTotal: real,
    tip: real,
    totalAmount: real,
    items: seq<PersonItem>)

  /** The mathematical sum of all item prices. */
  function PriceSum(items: seq<BillItem>): real {
    if |items| == 0 then 0.0 else items[0].price + PriceSum(items[1..])
  }

  /** Sum of the prices of the shared items only. */
  function SharedTotal(items: seq<BillItem>): real {
    if |items| == 0 then 0.0
    else (if items[0].Shared? then items[0].price else 0.0) + SharedTotal(items[1..])
  }

  /** Sum of the prices of the personal items of `person`. */
  function PersonalSpend(items: seq<BillItem>, person: string): real {
    if |items| == 0 then 0.0
    else
      (if items[0].Personal? && items[0].person == person then items[0].price else 0.0)
      + PersonalSpend(items[1..], person)
  }

  /** Sum of the prices of all personal items, whoever owns them. */
  function PersonalTotal(items: seq<BillItem>): real {
    if |items| == 0 then 0.0
    else (if items[0].Personal? then items[0].price else 0.0) + PersonalTotal(items[1..])
  }

  /** The accumulator loop of `items.reduce((sum, item) => sum + item.price, acc)`. */
  function ReducePrices(acc: real, items: seq<BillItem>): (r: real)
    ensures r == acc + PriceSum(items)
    decreases |items|
  {
    if |items| == 0 then acc else ReducePrices(acc + items[0].price, items[1..])
  }

  /** calculateSubTotal: the left-to-right reduction from 0 is the sum of every price. */
  function CalculateSubTotal(items: seq<BillItem>): (subTotal: real)
    ensures subTotal == PriceSum(items)
    ensures |items| == 0 ==> subTotal == 0.0
    ensures (forall i :: 0 <= i < |items| ==> items[i].price >= 0.0) ==> subTotal >= 0.0
  {
    NonNegativeSum(items);
    ReducePrices(0.0, items)
  }

  lemma {:induction false} NonNegativeSum(items: seq<BillItem>)
    ensures (forall i :: 0 <= i < |items| ==> items[i].price >= 0.0) ==> PriceSum(items) >= 0.0
  {
    if |items| > 0 {
      NonNegativeSum(items[1..]);
      if forall i :: 0 <= i < |items| ==> items[i].price >= 0.0 {
        assert forall i :: 0 <= i < |items| - 1 ==> items[1..][i] == items[i + 1];
      }
    }
  }

  /** The subtotal is additive over concatenation of item lists. */
  lemma {:induction false} SubTotalAppend(a: seq<BillItem>, b: seq<BillItem>)
    ensures CalculateSubTotal(a + b) == CalculateSubTotal(a) + CalculateSubTotal(b)
  {
    PriceSumAppend(a, b);
  }

  lemma {:induction false} PriceSumAppend(a: seq<BillItem>, b: seq<BillItem>)
    ensures PriceSum(a + b) == PriceSum(a) + PriceSum(b)
    decreases |a|
  {
    if |a| > 0 {
      assert (a + b)[1..] == a[1..] + b;
      PriceSumAppend(a[1..], b);
    } else {
      assert a + b == b;
    }
  }

  /** Every price counts towards the subtotal, whether the item is shared or personal. */
  lemma {:induction false} SubTotalSplitsByKind(items: seq<BillItem>)
    ensures CalculateSubTotal(items) == SharedTotal(items) + PersonalTotal(items)
  {
    KindSplit(items);
  }

  lemma {:induction false} KindSplit(items: seq<BillItem>)
    ensures PriceSum(items) == SharedTotal(items) + PersonalTotal(items)
  {
    if |items| > 0 {
      KindSplit(items[1..]);
    }
  }

  // ---- tip ----

  /** `x` is a whole number of tenths (a whole number of 10-cent units). */
  predicate IsTenths(x: real) {
    (x * 10.0).Floor as real == x * 10.0
  }

  function Abs(x: real): real {
    if x < 0.0 then -x else x
  }

  /**
    Rounds to the closest tenth, halves upwards (`Math.round(x * 10) / 10`):
    the result is a multiple of 0.1 within half a tenth of `x`, and a value
    exactly half-way between two tenths goes to the upper one.
  */
  function RoundToTenths(x: real): (r: real)
    ensures IsTenths(r)
    ensures r - 0.05 <= x < r + 0.05
  {
    var k := (x * 10.0 + 0.5).Floor;
    assert (k as real) * 10.0 / 10.0 == k as real;
    k as real / 10.0
  }

  /** No multiple of 0.1 lies closer to `x` than its rounding. */
  lemma RoundToTenthsIsNearest(x: real, k: int)
    ensures Abs(x - RoundToTenths(x)) <= Abs(x - k as real / 10.0)
  {
    var r := RoundToTenths(x);
    var j := (r * 10.0).Floor;
    assert r == j as real / 10.0;
    if k < j {
      assert k as real / 10.0 <= r - 0.1;
    } else if k > j {
      assert k as real / 10.0 >= r + 0.1;
    }
  }

  /** The example in the comment of `calculateTip` in `core.ts`: 12.34 rounds to 12.3; a half (12.35) rounds up. */
  lemma RoundToTenthsExamples()
    ensures RoundToTenths(12.34) == 12.3
    ensures RoundToTenths(12.35) == 12.4
    ensures RoundToTenths(12.345) == 12.3
  {
    assert (12.34 * 10.0 + 0.5).Floor == 123;
    assert (12.35 * 10.0 + 0.5).Floor == 124;
    assert (12.345 * 10.0 + 0.5).Floor == 123;
  }

  /** The tip before rounding: `tipPercentage` percent of the subtotal. */
  function RawTip(subTotal: real, tipPercentage: real): real {
    subTotal * tipPercentage / 100.0
  }

  /** calculateTip: the percentage of the subtotal, rounded to the closest 10 cents. */
  function CalculateTip(subTotal: real, tipPercentage: real): (tip: real)
    ensures IsTenths(tip)
    ensures tip - 0.05 <= RawTip(subTotal, tipPercentage) < tip + 0.05
  {
    RoundToTenths(RawTip(subTotal, tipPercentage))
  }
}
