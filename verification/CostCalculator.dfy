/**
 Billing: line items summed over a hash map in whatever order it yields its keys, the
 total after discounts, and the estimate that should agree with the subtotal.
 */
module CostCalculator {
  import opened Prelude
  import opened BillingModels
  import opened Precision
  import opened Discounts
  import Bags

  datatype CostStructure = CostStructure(rates: map<MetricType, real>, freeAllowances: map<MetricType, real>) {

    function RateOf(t: MetricType): real {
      if t in rates then rates[t] else 0.0
    }

    function AllowanceOf(t: MetricType): real {
      if t in freeAllowances then freeAllowances[t] else 0.0
    }
  }

  datatype LineItem = LineItem(
    metricType: MetricType,
    usage: real,
    rate: real,
    freeAllowance: real,
    billableUsage: real,
    cost: real)

  datatype BillingRecord = BillingRecord(
    lineItems: seq<LineItem>,
    subtotal: real,
    discounts: real,
    totalCost: real)

  datatype BillingError =
    | InvalidRate(metricType: MetricType, error: PrecisionError)
    | InvalidAllowance(metricType: MetricType, error: PrecisionError)
    | CostError(metricType: MetricType, error: PrecisionError)
    | SubtotalError(error: PrecisionError)
    | DiscountError(error: PrecisionError)
    | TotalError(error: PrecisionError)

  // ------------------------------------------------------------------------ line items

  /** The line item of one metric type with the given total usage. */
  function ItemFor(t: MetricType, total: real, prices: CostStructure): Result<LineItem, BillingError> {
    var usage := ApplyPrecision(t, total);
    match ValidateAmount(prices.RateOf(t))
    case Err(e) => Err(InvalidRate(t, e))
    case Ok(rate) =>
      match ValidateAmount(prices.AllowanceOf(t))
      case Err(e) => Err(InvalidAllowance(t, e))
      case Ok(allowance) => PricedItem(t, usage, rate, allowance)
  }

  function PricedItem(t: MetricType, usage: real, rate: real, allowance: real): Result<LineItem, BillingError> {
    var billable := Billable(usage, allowance);
    match DEFAULT_CONTEXT.CalculateCost(billable, rate)
    case Err(e) => Err(CostError(t, e))
    case Ok(cost) => Ok(LineItem(t, usage, rate, allowance, billable, cost))
  }

  /** The cost of using `billable` at a rate: exact up to one rounding, and only too much can go wrong. */
  lemma CostIsRounded(billable: real, rate: real, product: real)
    requires billable >= 0.0 && rate >= 0.0 && product == billable * rate
    ensures product >= 0.0
    ensures DEFAULT_CONTEXT.CalculateCost(billable, rate).Ok? <==> product <= MAX_CHARGE
    ensures product <= MAX_CHARGE ==> DEFAULT_CONTEXT.CalculateCost(billable, rate) == Ok(RoundMonetary(product))
    ensures product <= MAX_CHARGE ==> Chargeable(RoundMonetary(product))
  {
    NonNegativeProduct(billable, rate);
    MultipliesWithin(billable, rate, product);
    if product <= MAX_CHARGE {
      ZeroIsMonetary();
      MaximumIsMonetary();
      RoundsBetween(0.0, product, MAX_CHARGE);
      RoundMonetaryIsNearest(RoundMonetary(product));
    }
  }

  lemma NonNegativeProduct(a: real, b: real)
    requires a >= 0.0 && b >= 0.0
    ensures a * b >= 0.0
  {
  }

  lemma ValidAmountIsRounded(amount: real)
    ensures ValidateAmount(amount).Ok? <==> 0.0 <= amount <= MAX_CHARGE
    ensures ValidateAmount(amount).Ok? ==> Chargeable(ValidateAmount(amount).value)
    ensures Monetary(amount) && ValidateAmount(amount).Ok? ==> ValidateAmount(amount).value == amount
  {
    RoundMonetaryIsNearest(amount);
    if 0.0 <= amount <= MAX_CHARGE {
      ZeroIsMonetary();
      MaximumIsMonetary();
      RoundsBetween(0.0, amount, MAX_CHARGE);
    }
  }

  predicate PricesInRange(t: MetricType, prices: CostStructure) {
    0.0 <= prices.RateOf(t) <= MAX_CHARGE && 0.0 <= prices.AllowanceOf(t) <= MAX_CHARGE
  }

  function Billable(usage: real, allowance: real): real {
    Greater(usage - allowance, 0.0)
  }

  /** The charge for what is used beyond the allowance. */
  function Charge(usage: real, allowance: real, rate: real): real {
    Billable(usage, allowance) * rate
  }

  lemma PricedItemCost(t: MetricType, usage: real, rate: real, allowance: real, exact: real)
    requires rate >= 0.0 && exact == Charge(usage, allowance, rate)
    ensures PricedItem(t, usage, rate, allowance).Ok? <==> exact <= MAX_CHARGE
    ensures PricedItem(t, usage, rate, allowance).Ok? ==>
              exact >= 0.0 && PricedItem(t, usage, rate, allowance).value.cost == RoundMonetary(exact)
    ensures PricedItem(t, usage, rate, allowance).Ok? ==> Chargeable(RoundMonetary(exact))
  {
    CostIsRounded(Billable(usage, allowance), rate, exact);
  }

  lemma ChargeIsMonotone(less: real, more: real, allowance: real, rate: real)
    requires less <= more && rate >= 0.0
    ensures Charge(less, allowance, rate) <= Charge(more, allowance, rate)
  {
    MonotoneProduct(Billable(less, allowance), Billable(more, allowance), rate);
  }

  lemma MonotoneProduct(a: real, b: real, c: real)
    requires a <= b && c >= 0.0
    ensures a * c <= b * c
  {
  }

  /** What an item costs before its one rounding. */
  function ExactCost(t: MetricType, total: real, prices: CostStructure): real {
    Charge(ApplyPrecision(t, total), RoundMonetary(prices.AllowanceOf(t)), RoundMonetary(prices.RateOf(t)))
  }

  /** An item is billed if its prices are in range and the exact cost is, and then at the exact cost, rounded. */
  lemma ItemCost(t: MetricType, total: real, prices: CostStructure, exact: real)
    requires exact == ExactCost(t, total, prices)
    ensures ItemFor(t, total, prices).Ok? <==> PricesInRange(t, prices) && exact <= MAX_CHARGE
    ensures ItemFor(t, total, prices).Ok? ==>
              && exact >= 0.0 && ItemFor(t, total, prices).value.cost == RoundMonetary(exact)
              && Chargeable(RoundMonetary(exact))
  {
    ValidAmountIsRounded(prices.RateOf(t));
    ValidAmountIsRounded(prices.AllowanceOf(t));
    if PricesInRange(t, prices) {
      PricedItemCost(t, ApplyPrecision(t, total), RoundMonetary(prices.RateOf(t)), RoundMonetary(prices.AllowanceOf(t)),
                     exact);
    }
  }

  /** Why an item is not billed: its rate is checked first, then its allowance, then the cost. */
  lemma ItemErrors(t: MetricType, total: real, prices: CostStructure)
    ensures prices.RateOf(t) < 0.0 ==> ItemFor(t, total, prices) == Err(InvalidRate(t, NegativeAmount))
    ensures prices.RateOf(t) > MAX_CHARGE ==> ItemFor(t, total, prices) == Err(InvalidRate(t, ExceedsMaximum))
    ensures 0.0 <= prices.RateOf(t) <= MAX_CHARGE && prices.AllowanceOf(t) < 0.0 ==>
              ItemFor(t, total, prices) == Err(InvalidAllowance(t, NegativeAmount))
    ensures 0.0 <= prices.RateOf(t) <= MAX_CHARGE && prices.AllowanceOf(t) > MAX_CHARGE ==>
              ItemFor(t, total, prices) == Err(InvalidAllowance(t, ExceedsMaximum))
    ensures PricesInRange(t, prices) && ItemFor(t, total, prices).Err? ==>
              ItemFor(t, total, prices).error.CostError? && ItemFor(t, total, prices).error.metricType == t
  {
  }

  /** A metric without a price has no rate, and one without an allowance nothing free. */
  lemma Unpriced(t: MetricType, prices: CostStructure)
    ensures prices.RateOf(t) == if t in prices.rates then prices.rates[t] else 0.0
    ensures prices.AllowanceOf(t) == if t in prices.freeAllowances then prices.freeAllowances[t] else 0.0
  {
  }

  /** Usage up to the allowance is free; what goes beyond, `over` at the rate, is rounded once. */
  lemma AllowanceIsFree(t: MetricType, usage: real, rate: real, allowance: real, over: real)
    requires rate >= 0.0 && over == (usage - allowance) * rate
    requires PricedItem(t, usage, rate, allowance).Ok?
    ensures var item := PricedItem(t, usage, rate, allowance).value;
            && item.metricType == t && item.usage == usage && item.rate == rate && item.freeAllowance == allowance
            && (usage <= allowance ==> item.billableUsage == 0.0 && item.cost == 0.0)
            && (usage > allowance ==> item.billableUsage == usage - allowance && item.cost == RoundMonetary(over))
  {
    FreeOrCharged(usage, allowance, rate, over);
    PricedItemCost(t, usage, rate, allowance, Charge(usage, allowance, rate));
    ZeroIsMonetary();
    RoundMonetaryIsNearest(0.0);
  }

  lemma FreeOrCharged(usage: real, allowance: real, rate: real, over: real)
    requires over == (usage - allowance) * rate
    ensures Charge(usage, allowance, rate) == if usage <= allowance then 0.0 else over
  {
  }

  /** A billed item is priced at the rounded usage, rate and allowance of its metric. */
  lemma ItemIsPriced(t: MetricType, total: real, prices: CostStructure)
    requires ItemFor(t, total, prices).Ok?
    ensures ItemFor(t, total, prices) ==
            PricedItem(t, RoundAt(total, ScaleOf(t)), RoundMonetary(prices.RateOf(t)),
                       RoundMonetary(prices.AllowanceOf(t)))
    ensures RoundMonetary(prices.RateOf(t)) >= 0.0
  {
    ValidAmountIsRounded(prices.RateOf(t));
    ValidAmountIsRounded(prices.AllowanceOf(t));
  }

  lemma ExactCostIsMonotone(t: MetricType, less: real, more: real, prices: CostStructure)
    requires less <= more && PricesInRange(t, prices)
    ensures ExactCost(t, less, prices) <= ExactCost(t, more, prices)
  {
    ValidAmountIsRounded(prices.RateOf(t));
    RoundAtMonotone(less, more, ScaleOf(t));
    ChargeIsMonotone(ApplyPrecision(t, less), ApplyPrecision(t, more), RoundMonetary(prices.AllowanceOf(t)),
                     RoundMonetary(prices.RateOf(t)));
  }

  /** Using more never costs less, and what can be billed can also be billed at a lower usage. */
  lemma ItemCostIsMonotone(t: MetricType, less: real, more: real, prices: CostStructure)
    requires less <= more && ItemFor(t, more, prices).Ok?
    ensures ItemFor(t, less, prices).Ok? && ItemFor(t, less, prices).value.cost <= ItemFor(t, more, prices).value.cost
  {
    var low, high := ExactCost(t, less, prices), ExactCost(t, more, prices);
    ItemCost(t, less, prices, low);
    ItemCost(t, more, prices, high);
    ExactCostIsMonotone(t, less, more, prices);
    RoundAtMonotone(low, high, MONETARY_SCALE);
  }

  // -------------------------------------------------------------------------- subtotal

  /** One entry of the usage map: a metric type and its total. */
  datatype Entry = Entry(metricType: MetricType, total: real)

  type ItemResult = Result<LineItem, BillingError>

  /** Pricing at a cost structure. */
  function Pricer(prices: CostStructure): Entry -> ItemResult {
    (entry: Entry) => ItemFor(entry.metricType, entry.total, prices)
  }

  /** The loop's accumulation: line items and their running checked sum, up to the first error. */
  function AddUp(items: seq<ItemResult>): Result<(seq<LineItem>, real), BillingError> {
    if items == [] then Ok(([], 0.0))
    else
      match AddUp(items[..|items| - 1])
      case Err(e) => Err(e)
      case Ok((billed, subtotal)) =>
        match items[|items| - 1]
        case Err(e) => Err(e)
        case Ok(item) =>
          match SafeAdd(subtotal, item.cost)
          case Err(e) => Err(SubtotalError(e))
          case Ok(sum) => Ok((billed + [item], sum))
  }

  function BillItems(usage: seq<Entry>, prices: CostStructure): Result<(seq<LineItem>, real), BillingError> {
    AddUp(Bags.Mapped(Pricer(prices), usage))
  }

  predicate AllOk(items: seq<ItemResult>) {
    forall i :: 0 <= i < |items| ==> items[i].Ok?
  }

  ghost predicate AllChargeable(items: seq<ItemResult>) {
    forall i :: 0 <= i < |items| && items[i].Ok? ==> Chargeable(items[i].value.cost)
  }

  /** The exact sum of the costs. */
  ghost function Total(items: seq<ItemResult>): real {
    if items == [] then 0.0
    else Total(items[..|items| - 1]) + if items[|items| - 1].Ok? then items[|items| - 1].value.cost else 0.0
  }

  /** The loop succeeds exactly when every item is valid and the exact sum is chargeable, and then gives that sum. */
  lemma {:induction false} AddUpIsExact(items: seq<ItemResult>)
    requires AllChargeable(items)
    ensures AddUp(items).Ok? <==> AllOk(items) && Total(items) <= MAX_CHARGE
    ensures AddUp(items).Ok? ==>
              && |AddUp(items).value.0| == |items|
              && forall i :: 0 <= i < |items| ==> items[i] == Ok(AddUp(items).value.0[i])
    ensures AddUp(items).Ok? ==> AddUp(items).value.1 == Total(items)
    ensures Chargeable(Total(items))
  {
    ZeroIsMonetary();
    if items != [] {
      var front, last := items[..|items| - 1], items[|items| - 1];
      AddUpIsExact(front);
      assert AllOk(items) <==> AllOk(front) && last.Ok?;
      if last.Ok? {
        assert Chargeable(last.value.cost);
        SafeAddIsExact(Total(front), last.value.cost);
        MonetaryCloses(Total(front), last.value.cost);
      }
    }
  }

  lemma {:induction false} TotalWithout(items: seq<ItemResult>, i: nat)
    requires i < |items|
    ensures Total(items) == Total(Bags.Without(items, i)) + if items[i].Ok? then items[i].value.cost else 0.0
  {
    var n := |items| - 1;
    if i == n {
      assert Bags.Without(items, i) == items[..n];
    } else {
      TotalWithout(items[..n], i);
      Bags.WithoutSnoc(items, i);
    }
  }

  lemma {:induction false} TotalOfBag(items: seq<ItemResult>, others: seq<ItemResult>)
    requires multiset(items) == multiset(others)
    ensures Total(items) == Total(others)
    decreases |items|
  {
    if items == [] {
      Bags.OnlyEmptyIsEmpty(others);
    } else {
      var i := Bags.LastHasAPlace(items, others);
      TotalOfBag(items[..|items| - 1], Bags.Without(others, i));
      TotalWithout(others, i);
    }
  }

  lemma AllOkInAnyOrder(items: seq<ItemResult>, others: seq<ItemResult>)
    requires multiset(items) == multiset(others) && AllOk(items)
    ensures AllOk(others)
  {
    forall i | 0 <= i < |others|
      ensures others[i].Ok?
    {
      assert others[i] in multiset(items);
      var j: nat :| j < |items| && items[j] == others[i];
    }
  }

  /** The line items of successful results are the results, unwrapped. */
  lemma ValuesOfBag(items: seq<ItemResult>, values: seq<LineItem>)
    requires |values| == |items| && forall i :: 0 <= i < |items| ==> items[i] == Ok(values[i])
    ensures values == Bags.Mapped(Unwrapped, items)
  {
    Bags.MappedAt(Unwrapped, items);
  }

  /** The line item of a result; of a failed one, any. */
  function Unwrapped(r: ItemResult): LineItem {
    if r.Ok? then r.value else LineItem(ApiRequests, 0.0, 0.0, 0.0, 0.0, 0.0)
  }

  lemma AllItemsChargeable(usage: seq<Entry>, prices: CostStructure)
    ensures AllChargeable(Bags.Mapped(Pricer(prices), usage))
  {
    var items := Bags.Mapped(Pricer(prices), usage);
    Bags.MappedAt(Pricer(prices), usage);
    forall i | 0 <= i < |items| && items[i].Ok?
      ensures Chargeable(items[i].value.cost)
    {
      ItemCost(usage[i].metricType, usage[i].total, prices, ExactCost(usage[i].metricType, usage[i].total, prices));
    }
  }

  /**
   The order in which the map yields its entries changes neither whether billing
   succeeds, nor the subtotal, nor the line items taken together.
   */
  lemma BillingIgnoresOrder(usage: seq<Entry>, other: seq<Entry>, prices: CostStructure)
    requires multiset(usage) == multiset(other)
    ensures BillItems(usage, prices).Ok? <==> BillItems(other, prices).Ok?
    ensures BillItems(usage, prices).Ok? ==> BillItems(usage, prices).value.1 == BillItems(other, prices).value.1
    ensures BillItems(usage, prices).Ok? ==>
              multiset(BillItems(usage, prices).value.0) == multiset(BillItems(other, prices).value.0)
  {
    var items, others := Bags.Mapped(Pricer(prices), usage), Bags.Mapped(Pricer(prices), other);
    AllItemsChargeable(usage, prices);
    AllItemsChargeable(other, prices);
    Bags.MappedBag(Pricer(prices), usage, other);
    AddUpIgnoresOrder(items, others);
  }

  lemma AddUpIgnoresOrder(items: seq<ItemResult>, others: seq<ItemResult>)
    requires multiset(items) == multiset(others) && AllChargeable(items) && AllChargeable(others)
    ensures AddUp(items).Ok? <==> AddUp(others).Ok?
    ensures AddUp(items).Ok? ==> AddUp(items).value.1 == AddUp(others).value.1
    ensures AddUp(items).Ok? ==> multiset(AddUp(items).value.0) == multiset(AddUp(others).value.0)
  {
    AddUpIsExact(items);
    AddUpIsExact(others);
    TotalOfBag(items, others);
    if AllOk(items) {
      AllOkInAnyOrder(items, others);
    } else if AllOk(others) {
      AllOkInAnyOrder(others, items);
    }
    if AddUp(items).Ok? {
      ValuesOfBag(items, AddUp(items).value.0);
      ValuesOfBag(others, AddUp(others).value.0);
      Bags.MappedBag(Unwrapped, items, others);
    }
  }

  /**
   Billing fails exactly on an invalid item or too large a sum, and else the subtotal is the
   exact sum of the costs.
   */
  lemma BillingIsExact(usage: seq<Entry>, prices: CostStructure)
    ensures BillItems(usage, prices).Ok? <==>
            && (forall i :: 0 <= i < |usage| ==> ItemFor(usage[i].metricType, usage[i].total, prices).Ok?)
            && Total(Bags.Mapped(Pricer(prices), usage)) <= MAX_CHARGE
    ensures BillItems(usage, prices).Ok? ==>
              BillItems(usage, prices).value.1 == Total(Bags.Mapped(Pricer(prices), usage))
  {
    AllItemsChargeable(usage, prices);
    AddUpIsExact(Bags.Mapped(Pricer(prices), usage));
    Bags.MappedAt(Pricer(prices), usage);
  }

  // ------------------------------------------------------------------------- the total

  /** Without a user context there are no discounts to take. */
  function BillTotal(items: seq<LineItem>, subtotal: real, discounts: Option<seq<DiscountType>>, now: int)
    : Result<BillingRecord, BillingError>
  {
    var taken := if discounts.None? then Ok(0.0)
                 else TotalOf(TakeDiscounts(subtotal, discounts.value, now), subtotal);
    match taken
    case Err(e) => Err(DiscountError(e))
    case Ok(off) =>
      match SafeAdd(subtotal, -off)
      case Err(e) => Err(TotalError(e))
      case Ok(total) => Ok(BillingRecord(items, subtotal, off, Greater(total, 0.0)))
  }

  /** A bill adds up: discounts between nothing and the subtotal, and the rest to pay, to the ten-thousandth. */
  lemma BillAddsUp(items: seq<LineItem>, subtotal: real, discounts: Option<seq<DiscountType>>, now: int)
    requires Chargeable(subtotal) && subtotal <= MAX_CHARGE
    ensures BillTotal(items, subtotal, discounts, now).Err? <==>
            discounts.Some? && TakeDiscounts(subtotal, discounts.value, now).Err?
    ensures var r := BillTotal(items, subtotal, discounts, now);
            r.Ok? ==> r.value.lineItems == items && r.value.subtotal == subtotal
    ensures var r := BillTotal(items, subtotal, discounts, now);
            r.Ok? ==> 0.0 <= r.value.discounts <= subtotal && r.value.totalCost == subtotal - r.value.discounts
    ensures var r := BillTotal(items, subtotal, discounts, now);
            r.Ok? ==>
              r.value.discounts == if discounts.None? then 0.0
                                   else TakeDiscounts(subtotal, discounts.value, now).value.total
  {
    ZeroIsMonetary();
    if discounts.None? {
      SafeSubtractIsExact(subtotal, 0.0);
    } else {
      RuleIsSound(now);
      DiscountsConserve(RuleAt(now), subtotal, discounts.value);
      var taken := TakeDiscounts(subtotal, discounts.value, now);
      if taken.Ok? {
        SafeSubtractIsExact(subtotal, taken.value.total);
      }
    }
  }

  /** So only a discount can keep a bill from being made, and the error says which. */
  lemma BillErrors(items: seq<LineItem>, subtotal: real, discounts: Option<seq<DiscountType>>, now: int)
    requires Chargeable(subtotal) && subtotal <= MAX_CHARGE
    requires BillTotal(items, subtotal, discounts, now).Err?
    ensures discounts.Some? && TakeDiscounts(subtotal, discounts.value, now).Err?
    ensures BillTotal(items, subtotal, discounts, now) ==
            Err(DiscountError(TakeDiscounts(subtotal, discounts.value, now).error))
  {
    BillAddsUp(items, subtotal, discounts, now);
  }

  /** The bill for the entries of the usage map, in the order in which the map yields them. */
  function Bill(usage: seq<Entry>, prices: CostStructure, discounts: Option<seq<DiscountType>>, now: int)
    : Result<BillingRecord, BillingError>
  {
    match BillItems(usage, prices)
    case Err(e) => Err(e)
    case Ok((items, subtotal)) => BillTotal(items, subtotal, discounts, now)
  }

  /** Every bill adds up, and is the same in whatever order the map yields its entries. */
  lemma BillsAddUpInAnyOrder(usage: seq<Entry>, other: seq<Entry>, prices: CostStructure,
                             discounts: Option<seq<DiscountType>>, now: int)
    requires multiset(usage) == multiset(other) && Bill(usage, prices, discounts, now).Ok?
    ensures Bill(other, prices, discounts, now).Ok?
    ensures var b := Bill(usage, prices, discounts, now).value;
            0.0 <= b.discounts <= b.subtotal <= MAX_CHARGE && b.totalCost == b.subtotal - b.discounts
    ensures var b, b' := Bill(usage, prices, discounts, now).value, Bill(other, prices, discounts, now).value;
            b' == b.(lineItems := b'.lineItems) && multiset(b'.lineItems) == multiset(b.lineItems)
  {
    var r := BillItems(usage, prices).value;
    BillingIgnoresOrder(usage, other, prices);
    AllItemsChargeable(usage, prices);
    AddUpIsExact(Bags.Mapped(Pricer(prices), usage));
    BillAddsUp(r.0, r.1, discounts, now);
    BillAddsUp(BillItems(other, prices).value.0, r.1, discounts, now);
  }

  /** The loop over the usage map: an item for every entry, until one is invalid or the sum too large. */
  method AddItems(price: Entry -> ItemResult, usage: seq<Entry>)
    returns (r: Result<(seq<LineItem>, real), BillingError>)
    ensures r == AddUp(Bags.Mapped(price, usage))
  {
    var lineItems: seq<LineItem>, subtotal := [], 0.0;
    ghost var items := Bags.Mapped(price, usage);
    Bags.MappedAt(price, usage);
    for i := 0 to |usage|
      invariant AddUp(items[..i]) == Ok((lineItems, subtotal))
    {
      assert items[..i + 1][..i] == items[..i];
      if AddUp(items[..i + 1]).Err? {
        FailedItems(items, i + 1);
      }
      var item := price(usage[i]);
      if item.Err? {
        return Err(item.error);
      }
      lineItems := lineItems + [item.value];
      var sum := SafeAdd(subtotal, item.value.cost);
      if sum.Err? {
        return Err(SubtotalError(sum.error));
      }
      subtotal := sum.value;
    }
    assert items[..|usage|] == items;
    return Ok((lineItems, subtotal));
  }

  /** The end of a bill: the discounts are taken, and the rest is to pay. */
  method Settle(lineItems: seq<LineItem>, subtotal: real, discounts: Option<seq<DiscountType>>, now: int)
    returns (r: Result<BillingRecord, BillingError>)
    ensures r == BillTotal(lineItems, subtotal, discounts, now)
  {
    var off := 0.0;
    if discounts.Some? {
      var taken := CalculateTotalDiscounts(discounts.value, subtotal, now);
      if taken.Err? {
        return Err(DiscountError(taken.error));
      }
      off := taken.value;
    }
    var total := SafeAdd(subtotal, -off);
    if total.Err? {
      return Err(TotalError(total.error));
    }
    return Ok(BillingRecord(lineItems, subtotal, off, Greater(total.value, 0.0)));
  }

  method CalculateCostWithStructure(usage: seq<Entry>, prices: CostStructure, discounts: Option<seq<DiscountType>>,
                                    now: int)
    returns (r: Result<BillingRecord, BillingError>)
    ensures r == Bill(usage, prices, discounts, now)
  {
    var items := AddItems(Pricer(prices), usage);
    if items.Err? {
      return Err(items.error);
    }
    r := Settle(items.value.0, items.value.1, discounts, now);
  }

  lemma {:induction false} FailedItems(items: seq<ItemResult>, n: nat)
    requires n <= |items| && AddUp(items[..n]).Err?
    ensures AddUp(items) == AddUp(items[..n])
  {
    if n == |items| {
      assert items[..n] == items;
    } else {
      assert items[..|items| - 1][..n] == items[..n];
      FailedItems(items[..|items| - 1], n);
    }
  }

  // ---------------------------------------------------------------------- the estimate

  predicate IsCumulative(t: MetricType) {
    t.CpuUsage? || t.MemoryUsage? || t.StorageUsage? || t.ExecutionTime?
  }

  /** Usage that accumulates is projected over the duration. */
  function Projected(entry: Entry, duration: real): real {
    if IsCumulative(entry.metricType) then entry.total * duration else entry.total
  }

  /** The charge without any rounding. */
  function EstimateOne(t: MetricType, total: real, prices: CostStructure): real {
    Charge(total, prices.AllowanceOf(t), prices.RateOf(t))
  }

  function Estimate(usage: seq<Entry>, prices: CostStructure, duration: real): real {
    if usage == [] then 0.0
    else
      var last := usage[|usage| - 1];
      Estimate(usage[..|usage| - 1], prices, duration) + EstimateOne(last.metricType, Projected(last, duration), prices)
  }

  /**
   The estimate adds up what each usage beyond its allowance costs; what accumulates is taken
   for the whole duration, and nothing is rounded.
   */
  lemma EstimateAdds(usage: seq<Entry>, entry: Entry, prices: CostStructure, duration: real)
    ensures Estimate([], prices, duration) == 0.0
    ensures var t := entry.metricType;
            var projected := if t in {CpuUsage, MemoryUsage, StorageUsage, ExecutionTime} then entry.total * duration
                             else entry.total;
            Estimate(usage + [entry], prices, duration) == Estimate(usage, prices, duration) +
            if projected <= prices.AllowanceOf(t) then 0.0 else (projected - prices.AllowanceOf(t)) * prices.RateOf(t)
  {
    assert (usage + [entry])[..|usage|] == usage;
    var projected, allowance := Projected(entry, duration), prices.AllowanceOf(entry.metricType);
    var rate := prices.RateOf(entry.metricType);
    FreeOrCharged(projected, allowance, rate, (projected - allowance) * rate);
  }

  /** The duration is a float in the source, and taken for one if it has no decimal value. */
  method CalculateEstimatedCost(usage: seq<Entry>, prices: CostStructure, durationHours: Option<real>)
    returns (estimatedCost: real)
    ensures estimatedCost == Estimate(usage, prices, if durationHours.Some? then durationHours.value else 1.0)
  {
    estimatedCost := 0.0;
    var duration := if durationHours.Some? then durationHours.value else 1.0;
    for i := 0 to |usage|
      invariant estimatedCost == Estimate(usage[..i], prices, duration)
    {
      assert usage[..i + 1][..i] == usage[..i];
      estimatedCost := estimatedCost + EstimateOne(usage[i].metricType, Projected(usage[i], duration), prices);
    }
    assert usage[..|usage|] == usage;
  }

  function Gap(a: real, b: real): real {
    if a >= b then a - b else b - a
  }

  /** The exact change of a product, and what it comes to when one factor moves by at most `d`. */
  lemma ProductMoves(used: real, rate: real, used': real, rate': real, d: real)
    requires used' >= 0.0 && rate >= 0.0 && Gap(used', used) <= d
    ensures Gap(used' * rate', used * rate) <= used' * Gap(rate', rate) + d * rate
  {
    assert used' * rate' - used * rate == used' * (rate' - rate) + (used' - used) * rate;
    MonotoneProduct(Gap(used', used), d, rate);
    NonNegativeProduct(Gap(used', used), rate);
    NonNegativeProduct(used', Gap(rate', rate));
    assert used' * (rate' - rate) == used' * Gap(rate', rate) || used' * (rate' - rate) == -(used' * Gap(rate', rate));
    assert (used' - used) * rate == Gap(used', used) * rate || (used' - used) * rate == -(Gap(used', used) * rate);
  }

  lemma RoundedProductMoves(used: real, rate: real, used': real, rate': real, d: real, exact: real, estimate: real,
                            slack: real)
    requires used' >= 0.0 && rate >= 0.0 && Gap(used', used) <= d
    requires exact == used' * rate' && estimate == used * rate
    requires slack == 1.0 / 20000.0 + used' * Gap(rate', rate) + d * rate
    ensures Gap(RoundMonetary(exact), estimate) <= slack
  {
    ProductMoves(used, rate, used', rate', d);
    RoundMonetaryIsNearest(exact);
  }

  /** Usage, allowance and rate of a charge, and what they are rounded to before it is made. */
  datatype Rounding = Rounding(usage: real, allowance: real, rate: real, usage': real, allowance': real, rate': real) {

    ghost predicate Valid() {
      rate >= 0.0 && Gap(rate', rate) <= 1.0 / 20000.0 && Gap(allowance', allowance) <= 1.0 / 20000.0
    }

    function BillableGap(): real {
      Gap(usage', usage) + Gap(allowance', allowance)
    }

    /** How far the charge can move, when it is rounded as well. */
    function Slack(): real {
      1.0 / 20000.0 + Billable(usage', allowance') * Gap(rate', rate) + BillableGap() * rate
    }

    lemma RoundedIsNear()
      requires Valid()
      ensures Gap(RoundMonetary(Charge(usage', allowance', rate')), Charge(usage, allowance, rate)) <= Slack()
    {
      RoundedProductMoves(Billable(usage, allowance), rate, Billable(usage', allowance'), rate', BillableGap(),
                          Charge(usage', allowance', rate'), Charge(usage, allowance, rate), Slack());
    }

    /**
     One part in 20000 for the item, for each unit billed and for each unit of the rate, and
     the rate for what the usage was rounded by.
     */
    lemma SlackIsSmall()
      requires Valid()
      ensures Slack() <= (1.0 + Billable(usage', allowance') + rate) / 20000.0 + Gap(usage', usage) * rate
    {
      SmallProducts(Billable(usage', allowance'), Gap(rate', rate), Gap(usage', usage), Gap(allowance', allowance),
                    rate, BillableGap());
    }
  }

  lemma SmallProducts(used: real, rateGap: real, usageGap: real, allowanceGap: real, rate: real, d: real)
    requires used >= 0.0 && rate >= 0.0 && rateGap <= 1.0 / 20000.0 && allowanceGap <= 1.0 / 20000.0
    requires d == usageGap + allowanceGap
    ensures used * rateGap + d * rate <= (used + rate) / 20000.0 + usageGap * rate
  {
    MonotoneProduct(rateGap, 1.0 / 20000.0, used);
    MonotoneProduct(allowanceGap, 1.0 / 20000.0, rate);
  }

  function RoundingOf(entry: Entry, prices: CostStructure): Rounding {
    var rate, allowance := prices.RateOf(entry.metricType), prices.AllowanceOf(entry.metricType);
    Rounding(entry.total, allowance, rate,
             ApplyPrecision(entry.metricType, entry.total), RoundMonetary(allowance), RoundMonetary(rate))
  }

  lemma RoundingIsValid(entry: Entry, prices: CostStructure)
    requires prices.RateOf(entry.metricType) >= 0.0
    ensures RoundingOf(entry, prices).Valid()
  {
    RoundMonetaryIsNearest(prices.RateOf(entry.metricType));
    RoundMonetaryIsNearest(prices.AllowanceOf(entry.metricType));
  }

  /** Whatever is billed is within the slack of its estimate. */
  lemma ItemNearEstimate(entry: Entry, prices: CostStructure)
    ensures var t, r := entry.metricType, ItemFor(entry.metricType, entry.total, prices);
            r.Ok? ==> Gap(r.value.cost, EstimateOne(t, entry.total, prices)) <= RoundingOf(entry, prices).Slack()
  {
    var t := entry.metricType;
    ItemCost(t, entry.total, prices, ExactCost(t, entry.total, prices));
    if ItemFor(t, entry.total, prices).Ok? {
      RoundingIsValid(entry, prices);
      RoundingOf(entry, prices).RoundedIsNear();
    }
  }

  /** The estimate of usage as it is, without a duration to project it over. */
  function Estimated(usage: seq<Entry>, prices: CostStructure): real {
    if usage == [] then 0.0
    else
      var last := usage[|usage| - 1];
      Estimated(usage[..|usage| - 1], prices) + EstimateOne(last.metricType, last.total, prices)
  }

  function Slacks(usage: seq<Entry>, prices: CostStructure): real {
    if usage == [] then 0.0 else Slacks(usage[..|usage| - 1], prices) + RoundingOf(usage[|usage| - 1], prices).Slack()
  }

  /** Prices that validation leaves as they are. */
  ghost predicate Exact(prices: CostStructure) {
    && (forall t :: t in prices.rates ==> Monetary(prices.rates[t]))
    && (forall t :: t in prices.freeAllowances ==> Monetary(prices.freeAllowances[t]))
  }

  /** With prices and usage at their decimals only the last rounding is left. */
  lemma ExactSlack(entry: Entry, prices: CostStructure)
    requires Exact(prices) && OnScale(entry.total, ScaleOf(entry.metricType))
    ensures RoundingOf(entry, prices).Slack() == 1.0 / 20000.0
  {
    ZeroIsMonetary();
    RoundMonetaryIsNearest(prices.RateOf(entry.metricType));
    RoundMonetaryIsNearest(prices.AllowanceOf(entry.metricType));
    RoundAtFixes(entry.total, ScaleOf(entry.metricType));
  }

  /** The usage an estimate projects over a duration. */
  function Projection(duration: real): Entry -> Entry {
    (entry: Entry) => entry.(total := Projected(entry, duration))
  }

  /** The bill of the usage projected over any duration is within the slack of the estimate for that duration. */
  lemma SubtotalNearEstimate(usage: seq<Entry>, prices: CostStructure, duration: real)
    ensures var projected := Bags.Mapped(Projection(duration), usage);
            var r := BillItems(projected, prices);
            r.Ok? ==> Gap(r.value.1, Estimate(usage, prices, duration)) <= Slacks(projected, prices)
  {
    var projected := Bags.Mapped(Projection(duration), usage);
    EstimateProjects(usage, prices, duration);
    BillingIsExact(projected, prices);
    if BillItems(projected, prices).Ok? {
      Bags.MappedAt(Pricer(prices), projected);
      TotalNearEstimate(projected, prices);
    }
  }

  lemma {:induction false} EstimateProjects(usage: seq<Entry>, prices: CostStructure, duration: real)
    ensures Estimate(usage, prices, duration) == Estimated(Bags.Mapped(Projection(duration), usage), prices)
  {
    if usage != [] {
      var front, entry := usage[..|usage| - 1], Projection(duration)(usage[|usage| - 1]);
      var projected := Bags.Mapped(Projection(duration), front);
      EstimateProjects(front, prices, duration);
      assert (projected + [entry])[..|projected|] == projected;
    }
  }

  lemma {:induction false} TotalNearEstimate(usage: seq<Entry>, prices: CostStructure)
    requires AllOk(Bags.Mapped(Pricer(prices), usage))
    ensures Gap(Total(Bags.Mapped(Pricer(prices), usage)), Estimated(usage, prices)) <= Slacks(usage, prices)
  {
    if usage != [] {
      var front, entry := usage[..|usage| - 1], usage[|usage| - 1];
      var items := Bags.Mapped(Pricer(prices), front);
      assert (items + [Pricer(prices)(entry)])[..|items|] == items;
      assert Bags.Mapped(Pricer(prices), usage) == items + [Pricer(prices)(entry)];
      TotalNearEstimate(front, prices);
      ItemNearEstimate(entry, prices);
    }
  }

  /** So n items at their decimals are billed within n/20000 of their estimate. */
  lemma {:induction false} ExactSlacks(usage: seq<Entry>, prices: CostStructure)
    requires Exact(prices) && forall i :: 0 <= i < |usage| ==> OnScale(usage[i].total, ScaleOf(usage[i].metricType))
    ensures Slacks(usage, prices) == |usage| as real / 20000.0
  {
    if usage != [] {
      ExactSlacks(usage[..|usage| - 1], prices);
      ExactSlack(usage[|usage| - 1], prices);
    }
  }

  // --------------------------------------------------------------- the default structure

  /** The prices a bill is made at unless others are set. */
  const DEFAULT_PRICES := CostStructure(
    map[CpuUsage := 0.001, MemoryUsage := 0.0001, NetworkIngress := 0.0000001, NetworkEgress := 0.000001,
        StorageUsage := 0.00001, ExecutionTime := 0.005, ApiRequests := 0.0001],
    map[CpuUsage := 3600.0, MemoryUsage := 3600000.0, NetworkIngress := 1000000000.0, NetworkEgress := 1000000000.0,
        StorageUsage := 3600.0, ExecutionTime := 3600.0, ApiRequests := 10000.0])

  /** Metrics whose default allowance exceeds what validation admits. */
  predicate Refused(t: MetricType) {
    t.MemoryUsage? || t.NetworkIngress? || t.NetworkEgress?
  }

  /** At the default prices no usage of memory or the network can be billed, not even none. */
  lemma DefaultItem(t: MetricType, total: real)
    ensures Refused(t) ==> ItemFor(t, total, DEFAULT_PRICES) == Err(InvalidAllowance(t, ExceedsMaximum))
    ensures !Refused(t) ==> PricesInRange(t, DEFAULT_PRICES)
  {
    ValidAmountIsRounded(DEFAULT_PRICES.RateOf(t));
  }

  predicate DefaultBillable(entry: Entry) {
    !Refused(entry.metricType) && ExactCost(entry.metricType, entry.total, DEFAULT_PRICES) <= MAX_CHARGE
  }

  /** So a bill at the default prices needs usage of other kinds only, and is made if its items and sum are in range. */
  lemma DefaultBill(usage: seq<Entry>)
    ensures BillItems(usage, DEFAULT_PRICES).Ok? <==>
            && (forall i :: 0 <= i < |usage| ==> DefaultBillable(usage[i]))
            && Total(Bags.Mapped(Pricer(DEFAULT_PRICES), usage)) <= MAX_CHARGE
  {
    BillingIsExact(usage, DEFAULT_PRICES);
    forall i | 0 <= i < |usage|
      ensures ItemFor(usage[i].metricType, usage[i].total, DEFAULT_PRICES).Ok? <==>
              DefaultBillable(usage[i])
    {
      DefaultItem(usage[i].metricType, usage[i].total);
      ItemCost(usage[i].metricType, usage[i].total, DEFAULT_PRICES,
               ExactCost(usage[i].metricType, usage[i].total, DEFAULT_PRICES));
    }
  }

  /** Storage is free: its default rate rounds to nothing. */
  lemma DefaultStorageIsFree(total: real)
    ensures ExactCost(StorageUsage, total, DEFAULT_PRICES) == 0.0
  {
    RoundAtUnits(0.00001, MONETARY_SCALE);
    MonetaryUnits(0.00001);
    RoundAtFixes(0.0, MONETARY_SCALE);
  }
}
