/**
 Money as the billing code rounds it: decimals are reals, rounded half to even at a
 fixed number of decimals, and checked against the largest chargeable amount.
 */
module Precision {
  import opened Prelude
  import opened BillingModels

  // ------------------------------------------------------------ rounding to an integer

  /** Half to even. */
  function RoundInt(x: real): int {
    var down := x.Floor;
    var rest := x - down as real;
    if rest < 0.5 || (rest == 0.5 && down % 2 == 0) then down else down + 1
  }

  /** `n` is the integer nearest to `x`, and the even one if two are equally near. */
  ghost predicate Nearest(x: real, n: int) {
    -0.5 < n as real - x < 0.5 || ((n as real - x == 0.5 || n as real - x == -0.5) && n % 2 == 0)
  }

  lemma RoundIntIsNearest(x: real, n: int)
    ensures n == RoundInt(x) <==> Nearest(x, n)
  {
    if -0.5 <= n as real - x <= 0.5 {
      assert n == x.Floor || n == x.Floor + 1;
    }
  }

  lemma RoundIntMonotone(x: real, y: real)
    requires x <= y
    ensures RoundInt(x) <= RoundInt(y)
  {
    RoundIntIsNearest(x, RoundInt(x));
    RoundIntIsNearest(y, RoundInt(y));
  }

  lemma RoundIntFixesIntegers(n: int)
    ensures RoundInt(n as real) == n
  {
    RoundIntIsNearest(n as real, n);
  }

  /** Rounding commutes with reflection in an integer, which must be even for the ties to match. */
  lemma RoundIntReflects(k: int, x: real)
    ensures RoundInt((2 * k) as real - x) == 2 * k - RoundInt(x)
  {
    RoundIntIsNearest(x, RoundInt(x));
    RoundIntIsNearest((2 * k) as real - x, 2 * k - RoundInt(x));
  }

  // ------------------------------------------------------- rounding to a decimal place

  /** A value counted in units of the scale, so times ten for every decimal. */
  function InUnits(x: real, scale: nat): real
    decreases scale
  {
    if scale == 0 then x else InUnits(10.0 * x, scale - 1)
  }

  function FromUnits(q: real, scale: nat): real
    decreases scale
  {
    if scale == 0 then q else FromUnits(q, scale - 1) / 10.0
  }

  lemma {:induction false} UnitsInverse(x: real, scale: nat)
    ensures InUnits(FromUnits(x, scale), scale) == x
    ensures FromUnits(InUnits(x, scale), scale) == x
    decreases scale
  {
    if scale > 0 {
      UnitsInverse(x, scale - 1);
      UnitsInverse(10.0 * x, scale - 1);
      assert 10.0 * FromUnits(x, scale) == FromUnits(x, scale - 1);
    }
  }

  lemma {:induction false} UnitsMonotone(x: real, y: real, scale: nat)
    requires x <= y
    ensures InUnits(x, scale) <= InUnits(y, scale)
    ensures FromUnits(x, scale) <= FromUnits(y, scale)
    decreases scale
  {
    if scale > 0 {
      UnitsMonotone(10.0 * x, 10.0 * y, scale - 1);
      UnitsMonotone(x, y, scale - 1);
    }
  }

  lemma {:induction false} UnitsAdd(x: real, y: real, scale: nat)
    ensures InUnits(x + y, scale) == InUnits(x, scale) + InUnits(y, scale)
    ensures InUnits(x - y, scale) == InUnits(x, scale) - InUnits(y, scale)
    decreases scale
  {
    if scale > 0 {
      UnitsAdd(10.0 * x, 10.0 * y, scale - 1);
      assert 10.0 * (x + y) == 10.0 * x + 10.0 * y && 10.0 * (x - y) == 10.0 * x - 10.0 * y;
    }
  }

  /** Half to even at the given number of decimals. */
  function RoundAt(x: real, scale: nat): real
    decreases scale
  {
    if scale == 0 then RoundInt(x) as real else RoundAt(10.0 * x, scale - 1) / 10.0
  }

  /** That is to a whole number of units. */
  lemma {:induction false} RoundAtUnits(x: real, scale: nat)
    ensures RoundAt(x, scale) == FromUnits(RoundInt(InUnits(x, scale)) as real, scale)
    decreases scale
  {
    if scale > 0 {
      RoundAtUnits(10.0 * x, scale - 1);
    }
  }

  /** `x` is `n` units of the scale. */
  predicate IsUnits(x: real, scale: nat, n: int) {
    InUnits(x, scale) == n as real
  }

  /** `x` has no more decimals than the scale. */
  predicate OnScale(x: real, scale: nat) {
    IsUnits(x, scale, InUnits(x, scale).Floor)
  }

  lemma UnitsAreOnScale(x: real, scale: nat, n: int)
    requires IsUnits(x, scale, n)
    ensures OnScale(x, scale) && RoundAt(x, scale) == x
  {
    RoundAtUnits(x, scale);
    RoundIntFixesIntegers(n);
    UnitsInverse(x, scale);
  }

  /** The value comes out at the scale, and no more than half a unit away. */
  lemma RoundAtIsNear(x: real, scale: nat)
    ensures OnScale(RoundAt(x, scale), scale)
    ensures -0.5 <= InUnits(RoundAt(x, scale) - x, scale) <= 0.5
  {
    var n := RoundInt(InUnits(x, scale));
    RoundAtUnits(x, scale);
    RoundIntIsNearest(InUnits(x, scale), n);
    UnitsInverse(n as real, scale);
    UnitsAreOnScale(RoundAt(x, scale), scale, n);
    UnitsAdd(RoundAt(x, scale), x, scale);
  }

  /** It is unchanged exactly if it was already on the scale. */
  lemma RoundAtFixes(x: real, scale: nat)
    ensures RoundAt(x, scale) == x <==> OnScale(x, scale)
  {
    RoundAtIsNear(x, scale);
    if OnScale(x, scale) {
      UnitsAreOnScale(x, scale, InUnits(x, scale).Floor);
    }
  }

  lemma RoundAtIdempotent(x: real, scale: nat)
    ensures RoundAt(RoundAt(x, scale), scale) == RoundAt(x, scale)
  {
    RoundAtIsNear(x, scale);
    RoundAtFixes(RoundAt(x, scale), scale);
  }

  lemma RoundAtMonotone(x: real, y: real, scale: nat)
    requires x <= y
    ensures RoundAt(x, scale) <= RoundAt(y, scale)
  {
    RoundAtUnits(x, scale);
    RoundAtUnits(y, scale);
    UnitsMonotone(x, y, scale);
    RoundIntMonotone(InUnits(x, scale), InUnits(y, scale));
    UnitsMonotone(RoundInt(InUnits(x, scale)) as real, RoundInt(InUnits(y, scale)) as real, scale);
  }

  // ---------------------------------------------------------------------------- money

  const MONETARY_SCALE: nat := 4
  const MAX_CHARGE: real := 1_000_000.0
  const DECIMAL_MAX: real := 79_228_162_514_264_337_593_543_950_335.0

  datatype PrecisionError = NegativeAmount | ExceedsMaximum | Overflow | DivisionByZero | InvalidPercent

  function RoundMonetary(amount: real): real {
    RoundAt(amount, MONETARY_SCALE)
  }

  predicate Monetary(amount: real) {
    OnScale(amount, MONETARY_SCALE)
  }

  /** What can be charged: a monetary amount, and not a negative one. */
  predicate Chargeable(amount: real) {
    amount >= 0.0 && Monetary(amount)
  }

  lemma MonetaryUnits(amount: real)
    ensures InUnits(amount, MONETARY_SCALE) == 10000.0 * amount
  {
    assert InUnits(amount, 4) == InUnits(10.0 * amount, 3) == InUnits(100.0 * amount, 2) == InUnits(1000.0 * amount, 1);
  }

  /** Rounding money moves it by at most 1/20000, and not at all if it has four decimals. */
  lemma RoundMonetaryIsNearest(amount: real)
    ensures Monetary(RoundMonetary(amount))
    ensures RoundMonetary(amount) == amount <==> Monetary(amount)
    ensures -1.0 / 20000.0 <= RoundMonetary(amount) - amount <= 1.0 / 20000.0
  {
    RoundAtIsNear(amount, MONETARY_SCALE);
    RoundAtFixes(amount, MONETARY_SCALE);
    MonetaryUnits(RoundMonetary(amount) - amount);
  }

  lemma MonetaryCloses(a: real, b: real)
    requires Monetary(a) && Monetary(b)
    ensures Monetary(a + b) && Monetary(a - b)
  {
    UnitsAdd(a, b, MONETARY_SCALE);
    var i, j := InUnits(a, MONETARY_SCALE).Floor, InUnits(b, MONETARY_SCALE).Floor;
    UnitsAreOnScale(a + b, MONETARY_SCALE, i + j);
    UnitsAreOnScale(a - b, MONETARY_SCALE, i - j);
  }

  lemma ZeroIsMonetary()
    ensures Monetary(0.0)
  {
    MonetaryUnits(0.0);
    UnitsAreOnScale(0.0, MONETARY_SCALE, 0);
  }

  function ValidateAmount(amount: real): Result<real, PrecisionError> {
    if amount < 0.0 then Err(NegativeAmount)
    else if amount > MAX_CHARGE then Err(ExceedsMaximum)
    else Ok(RoundMonetary(amount))
  }

  /** The largest value of the decimal type bounds every intermediate result. */
  function Checked(value: real): Option<real> {
    if -DECIMAL_MAX <= value <= DECIMAL_MAX then Some(value) else None
  }

  function SafeAdd(a: real, b: real): Result<real, PrecisionError> {
    match Checked(a + b)
    case None => Err(Overflow)
    case Some(sum) => if sum > MAX_CHARGE then Err(ExceedsMaximum) else Ok(RoundMonetary(sum))
  }

  function SafeMultiply(a: real, b: real): Result<real, PrecisionError> {
    match Checked(a * b)
    case None => Err(Overflow)
    case Some(product) => if product > MAX_CHARGE then Err(ExceedsMaximum) else Ok(RoundMonetary(product))
  }

  function SafeDivide(a: real, b: real): Result<real, PrecisionError> {
    if b == 0.0 then Err(DivisionByZero)
    else match Checked(a / b)
      case None => Err(Overflow)
      case Some(quotient) => Ok(RoundMonetary(quotient))
  }

  /** Sums of monetary amounts in range are exact. */
  lemma SafeAddIsExact(a: real, b: real)
    requires Monetary(a) && Monetary(b) && a + b >= 0.0
    ensures SafeAdd(a, b).Ok? <==> a + b <= MAX_CHARGE
    ensures SafeAdd(a, b).Ok? ==> SafeAdd(a, b).value == a + b
  {
    MonetaryCloses(a, b);
    RoundMonetaryIsNearest(a + b);
  }

  /** And so are differences. */
  lemma SafeSubtractIsExact(a: real, b: real)
    requires Chargeable(a) && Chargeable(b) && b <= a
    ensures SafeAdd(a, -b) == if a - b <= MAX_CHARGE then Ok(a - b)
                              else if a - b <= DECIMAL_MAX then Err(ExceedsMaximum) else Err(Overflow)
    ensures Chargeable(a - b)
  {
    MonetaryCloses(a, b);
    RoundMonetaryIsNearest(a - b);
    assert a + -b == a - b;
  }

  /** The decimals each kind of usage is kept at. */
  function ScaleOf(t: MetricType): nat {
    match t
    case CpuUsage => 6
    case MemoryUsage => 2
    case NetworkIngress => 0
    case NetworkEgress => 0
    case StorageUsage => 3
    case ExecutionTime => 3
    case ApiRequests => 0
    case Custom(_) => 4
  }

  function ApplyPrecision(t: MetricType, usage: real): real {
    RoundAt(usage, ScaleOf(t))
  }

  /** The decimals at which each kind of usage is billed. */
  lemma UsageDecimals(t: MetricType, usage: real)
    ensures ApplyPrecision(t, usage) == RoundAt(usage, match t
                                                       case CpuUsage => 6
                                                       case MemoryUsage => 2
                                                       case StorageUsage => 3
                                                       case ExecutionTime => 3
                                                       case Custom(_) => 4
                                                       case _ => 0)
  {
  }

  /** The currency of a context is display only. */
  datatype FinancialContext = FinancialContext(enforceLimits: bool) {

    function CalculateCost(usage: real, rate: real): Result<real, PrecisionError> {
      match SafeMultiply(usage, rate)
      case Err(e) => Err(e)
      case Ok(rawCost) => if enforceLimits then ValidateAmount(rawCost) else Ok(RoundMonetary(rawCost))
    }

    function ApplyDiscount(amount: real, discountPercent: real): Result<real, PrecisionError> {
      if discountPercent < 0.0 || discountPercent > 100.0 then Err(InvalidPercent)
      else match SafeMultiply(amount, 100.0 - discountPercent)
        case Err(e) => Err(e)
        case Ok(discounted) => SafeDivide(discounted, 100.0)
    }

    /** Sums amounts, stopping at the first partial sum that is too large. */
    method SumCosts(costs: seq<real>) returns (r: Result<real, PrecisionError>)
      ensures r == SafeSum(costs)
    {
      var total := 0.0;
      for i := 0 to |costs|
        invariant SafeSum(costs[..i]) == Ok(total)
      {
        assert costs[..i + 1][..i] == costs[..i];
        var sum := SafeAdd(total, costs[i]);
        if sum.Err? {
          FailedPrefix(costs, i + 1);
          return sum;
        }
        total := sum.value;
      }
      assert costs[..|costs|] == costs;
      return Ok(total);
    }
  }

  const DEFAULT_CONTEXT := FinancialContext(true)

  /** The checked sum, from the left. */
  function SafeSum(costs: seq<real>): Result<real, PrecisionError> {
    if costs == [] then Ok(0.0)
    else
      match SafeSum(costs[..|costs| - 1])
      case Err(e) => Err(e)
      case Ok(total) => SafeAdd(total, costs[|costs| - 1])
  }

  lemma {:induction false} FailedPrefix(costs: seq<real>, n: nat)
    requires n <= |costs| && SafeSum(costs[..n]).Err?
    ensures SafeSum(costs) == SafeSum(costs[..n])
  {
    if n == |costs| {
      assert costs[..n] == costs;
    } else {
      assert costs[..|costs| - 1][..n] == costs[..n];
      FailedPrefix(costs[..|costs| - 1], n);
    }
  }

  /**
   For chargeable amounts the checked sum is the exact one, and it fails exactly when the
   whole sum is too large: no order of the amounts makes a difference.
   */
  lemma {:induction false} SafeSumIsExact(costs: seq<real>)
    requires forall i :: 0 <= i < |costs| ==> Chargeable(costs[i])
    ensures Chargeable(Sum(costs))
    ensures SafeSum(costs).Ok? <==> Sum(costs) <= MAX_CHARGE
    ensures SafeSum(costs).Ok? ==> SafeSum(costs).value == Sum(costs)
  {
    ZeroIsMonetary();
    if costs != [] {
      var front, last := costs[..|costs| - 1], costs[|costs| - 1];
      assert Chargeable(last);
      SafeSumIsExact(front);
      MonetaryCloses(Sum(front), last);
      SafeAddIsExact(Sum(front), last);
    }
  }

  /** A context that enforces its limits refuses a negative cost, which the other one gives. */
  lemma CostInContext(c: FinancialContext, usage: real, rate: real)
    ensures SafeMultiply(usage, rate).Err? ==> c.CalculateCost(usage, rate) == Err(SafeMultiply(usage, rate).error)
    ensures SafeMultiply(usage, rate).Ok? && SafeMultiply(usage, rate).value < 0.0 ==>
              c.CalculateCost(usage, rate) == if c.enforceLimits then Err(NegativeAmount)
                                              else Ok(RoundMonetary(SafeMultiply(usage, rate).value))
  {
  }

  // ------------------------------------------------------------------------- discounts

  /** What a discount leaves: the share is rounded once, then its hundredth again. */
  lemma DiscountFormula(amount: real, percent: real, share: real)
    requires amount >= 0.0 && 0.0 <= percent <= 100.0 && share == amount * (100.0 - percent)
    ensures 0.0 <= share <= amount * 100.0
    ensures DEFAULT_CONTEXT.ApplyDiscount(amount, percent) ==
            if share <= MAX_CHARGE then Ok(RoundMonetary(RoundMonetary(share) / 100.0))
            else if share <= DECIMAL_MAX then Err(ExceedsMaximum) else Err(Overflow)
  {
    ShareInRange(amount, 100.0 - percent);
    MultipliesWithin(amount, 100.0 - percent, share);
    if share <= MAX_CHARGE {
      ZeroIsMonetary();
      MaximumIsMonetary();
      RoundsBetween(0.0, share, MAX_CHARGE);
      DividesByHundred(RoundMonetary(share));
    }
  }

  /** What is left after a discount is a monetary amount between nothing and the whole. */
  lemma DiscountKeepsPart(amount: real, percent: real)
    requires Chargeable(amount)
    ensures DEFAULT_CONTEXT.ApplyDiscount(amount, percent).Ok? <==>
            0.0 <= percent <= 100.0 && amount * (100.0 - percent) <= MAX_CHARGE
    ensures var r := DEFAULT_CONTEXT.ApplyDiscount(amount, percent);
            r.Ok? ==> Chargeable(r.value) && r.value <= amount
  {
    if 0.0 <= percent <= 100.0 {
      var share := amount * (100.0 - percent);
      DiscountFormula(amount, percent, share);
      ZeroIsMonetary();
      HundredfoldIsMonetary(amount);
      RoundsBetween(0.0, share, amount * 100.0);
      RoundsBetween(0.0, RoundMonetary(share) / 100.0, amount);
    }
  }

  lemma MultipliesWithin(a: real, b: real, product: real)
    requires product == a * b >= 0.0
    ensures SafeMultiply(a, b) == if product <= MAX_CHARGE then Ok(RoundMonetary(product))
                                  else if product <= DECIMAL_MAX then Err(ExceedsMaximum) else Err(Overflow)
  {
  }

  lemma DividesByHundred(amount: real)
    requires 0.0 <= amount <= MAX_CHARGE
    ensures SafeDivide(amount, 100.0) == Ok(RoundMonetary(amount / 100.0))
  {
    assert Checked(amount / 100.0) == Some(amount / 100.0);
  }

  lemma MaximumIsMonetary()
    ensures Monetary(MAX_CHARGE)
  {
    MonetaryUnits(MAX_CHARGE);
    UnitsAreOnScale(MAX_CHARGE, MONETARY_SCALE, 10_000_000_000);
  }

  lemma ShareInRange(amount: real, share: real)
    requires amount >= 0.0 && 0.0 <= share <= 100.0
    ensures 0.0 <= amount * share <= amount * 100.0
  {
  }

  lemma HundredfoldIsMonetary(amount: real)
    requires Monetary(amount)
    ensures Monetary(amount * 100.0)
  {
    MonetaryUnits(amount);
    MonetaryUnits(amount * 100.0);
    UnitsAreOnScale(amount * 100.0, MONETARY_SCALE, 100 * (10000.0 * amount).Floor);
  }

  /** Rounding stays between monetary bounds. */
  lemma RoundsBetween(low: real, amount: real, high: real)
    requires Monetary(low) && Monetary(high) && low <= amount <= high
    ensures low <= RoundMonetary(amount) <= high && Monetary(RoundMonetary(amount))
  {
    RoundMonetaryIsNearest(low);
    RoundMonetaryIsNearest(amount);
    RoundMonetaryIsNearest(high);
    RoundAtMonotone(low, amount, MONETARY_SCALE);
    RoundAtMonotone(amount, high, MONETARY_SCALE);
  }

  // ------------------------------------------------- the discounted share or its rest

  /** `k` is what `e` hundredths round to. */
  predicate NearestHundred(e: int, k: int) {
    -50 < 100 * k - e < 50 || ((100 * k - e == 50 || 100 * k - e == -50) && k % 2 == 0)
  }

  /**
   Whether `e` hundredths of a unit and the rest of `n` units round to the same number of
   units: both to half of an even number, or by being equal.
   */
  predicate RoundsToHalf(n: int, e: int) {
    if n % 2 == 0 then NearestHundred(e, n / 2) else 2 * e == 100 * n
  }

  lemma RoundsHundredths(e: int, k: int)
    ensures k == RoundInt(e as real / 100.0) <==> NearestHundred(e, k)
  {
    RoundIntIsNearest(e as real / 100.0, k);
    assert 100.0 * (k as real - e as real / 100.0) == (100 * k - e) as real;
  }

  lemma NearestIsUnique(e: int, k: int, l: int)
    requires NearestHundred(e, k) && NearestHundred(e, l)
    ensures k == l
  {
  }

  lemma EvenHalves(h: int, e: int, k: int, l: int)
    requires NearestHundred(e, k) && NearestHundred(100 * (2 * h) - e, l)
    ensures k == l <==> NearestHundred(e, h)
  {
    NearestIsUnique(100 * (2 * h) - e, l, 2 * h - k);
    if NearestHundred(e, h) {
      NearestIsUnique(e, k, h);
    }
  }

  lemma OddHalves(h: int, e: int, k: int)
    requires NearestHundred(e, k) && NearestHundred(100 * (2 * h + 1) - e, k)
    ensures e == 50 * (2 * h + 1)
  {
    assert k == h || k == h + 1;
  }

  lemma HalvesAgree(n: int, e: int, k: int, l: int)
    requires NearestHundred(e, k) && NearestHundred(100 * n - e, l)
    ensures k == l <==> RoundsToHalf(n, e)
  {
    var h := n / 2;
    if n % 2 == 0 {
      assert n == 2 * h;
      EvenHalves(h, e, k, l);
    } else {
      assert n == 2 * h + 1;
      if k == l {
        OddHalves(h, e, k);
      } else if 2 * e == 100 * n {
        NearestIsUnique(e, k, l);
      }
    }
  }

  lemma TwiceRoundedUnits(share: real, e: int)
    requires e == RoundInt(10000.0 * share)
    ensures IsUnits(RoundMonetary(RoundMonetary(share) / 100.0), MONETARY_SCALE, RoundInt(e as real / 100.0))
  {
    var once := RoundMonetary(share);
    RoundAtUnits(share, MONETARY_SCALE);
    RoundAtUnits(once / 100.0, MONETARY_SCALE);
    MonetaryUnits(share);
    MonetaryUnits(once);
    MonetaryUnits(once / 100.0);
    UnitsInverse(e as real, MONETARY_SCALE);
    UnitsInverse(RoundInt(e as real / 100.0) as real, MONETARY_SCALE);
    assert 10000.0 * (once / 100.0) == e as real / 100.0;
  }

  lemma Complement(amount: real, percent: real, rest: real, share: real)
    requires share == amount * percent && percent + rest == 100.0
    ensures 100.0 * amount - share == amount * rest
  {
    assert amount * percent + amount * rest == amount * (percent + rest);
  }

  /** Two amounts whose units are the rounded hundredths of `e` and of the rest of `n`. */
  lemma PartsAgree(n: int, e: int, kept: real, part: real)
    requires IsUnits(part, MONETARY_SCALE, RoundInt(e as real / 100.0))
    requires IsUnits(kept, MONETARY_SCALE, RoundInt((100 * n - e) as real / 100.0))
    ensures kept == part <==> RoundsToHalf(n, e)
  {
    var k, l := RoundInt(e as real / 100.0), RoundInt((100 * n - e) as real / 100.0);
    RoundsHundredths(e, k);
    RoundsHundredths(100 * n - e, l);
    HalvesAgree(n, e, k, l);
    UnitsInverse(kept, MONETARY_SCALE);
    UnitsInverse(part, MONETARY_SCALE);
  }

  lemma ReflectedUnits(amount: real, n: int, share: real)
    requires IsUnits(amount, MONETARY_SCALE, n)
    ensures RoundInt(10000.0 * (100.0 * amount - share)) == 100 * n - RoundInt(10000.0 * share)
  {
    MonetaryUnits(amount);
    RoundIntReflects(50 * n, 10000.0 * share);
    assert 10000.0 * (100.0 * amount - share) == (2 * (50 * n)) as real - 10000.0 * share;
  }

  /** A hundredth of a share, rounded as the code rounds: once before the division and once after. */
  function PercentOf(share: real): (part: real)
    ensures Monetary(part) && -0.0000505 <= part - share / 100.0 <= 0.0000505
  {
    RoundMonetaryIsNearest(share);
    RoundMonetaryIsNearest(RoundMonetary(share) / 100.0);
    RoundMonetary(RoundMonetary(share) / 100.0)
  }

  /** What is left is in units the rounded hundredth of the rest. */
  lemma RestUnits(amount: real, n: int, share: real)
    requires IsUnits(amount, MONETARY_SCALE, n)
    ensures IsUnits(PercentOf(100.0 * amount - share), MONETARY_SCALE,
                    RoundInt((100 * n - RoundInt(10000.0 * share)) as real / 100.0))
  {
    TwiceRoundedUnits(100.0 * amount - share, RoundInt(10000.0 * (100.0 * amount - share)));
    ReflectedUnits(amount, n, share);
  }

  /**
   What a discount of `percent` leaves is `percent` of the amount exactly when there is a
   discount, and both round to half of the amount. `n` is the amount, and `e` its percentage
   times one hundred, in ten-thousandths.
   */
  lemma RestIsShareIff(amount: real, percent: real, share: real, n: int, e: int)
    requires Chargeable(amount) && share == amount * percent
    requires IsUnits(amount, MONETARY_SCALE, n) && e == RoundInt(10000.0 * share)
    ensures DEFAULT_CONTEXT.ApplyDiscount(amount, percent) == Ok(PercentOf(share))
       <==> 0.0 <= percent <= 100.0 && 100.0 * amount - share <= MAX_CHARGE && RoundsToHalf(n, e)
  {
    var rest := 100.0 * amount - share;
    Complement(amount, percent, 100.0 - percent, share);
    DiscountKeepsPart(amount, percent);
    if 0.0 <= percent <= 100.0 && rest <= MAX_CHARGE {
      DiscountFormula(amount, percent, rest);
      RestUnits(amount, n, share);
      TwiceRoundedUnits(share, e);
      PartsAgree(n, e, PercentOf(rest), PercentOf(share));
    }
  }
}
