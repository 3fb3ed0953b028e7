/** Discounts, and the loop that takes them one after another off a subtotal. */
module Discounts {
  import opened Prelude
  import opened Precision

  datatype DiscountType =
    | Percentage(percentage: real)
    | FixedAmount(amount: real)
    | Volume(threshold: real, percentage: real)
    | FirstTime(percentage: real)
    | Promotional(percentage: real, expiresAt: int)
  {
    /** The discount off `subtotal` at time `now`. */
    function CalculateDiscount(subtotal: real, now: int): Result<real, PrecisionError> {
      match this
      case Percentage(percentage) => DEFAULT_CONTEXT.ApplyDiscount(subtotal, percentage)
      case FixedAmount(amount) =>
        (match ValidateAmount(amount)
         case Err(e) => Err(e)
         case Ok(validated) => Ok(if validated <= subtotal then validated else subtotal))
      case Volume(threshold, percentage) =>
        if subtotal >= threshold then DEFAULT_CONTEXT.ApplyDiscount(subtotal, percentage) else Ok(0.0)
      case FirstTime(percentage) => DEFAULT_CONTEXT.ApplyDiscount(subtotal, percentage)
      case Promotional(percentage, expiresAt) =>
        if now <= expiresAt then DEFAULT_CONTEXT.ApplyDiscount(subtotal, percentage) else Ok(0.0)
    }
  }

  /** A discount never takes more than there is, and always whole ten-thousandths. */
  lemma DiscountWithinAmount(d: DiscountType, amount: real, now: int)
    requires Chargeable(amount)
    ensures var r := d.CalculateDiscount(amount, now);
            r.Ok? ==> Chargeable(r.value) && r.value <= amount
  {
    match d
    case FixedAmount(a) =>
      if a >= 0.0 {
        ZeroIsMonetary();
        RoundMonetaryIsNearest(a);
        RoundMonetaryIsNearest(0.0);
        RoundAtMonotone(0.0, a, MONETARY_SCALE);
      }
    case Percentage(p) => DiscountKeepsPart(amount, p);
    case FirstTime(p) => DiscountKeepsPart(amount, p);
    case Volume(_, p) => ZeroIsMonetary(); DiscountKeepsPart(amount, p);
    case Promotional(p, _) => ZeroIsMonetary(); DiscountKeepsPart(amount, p);
  }

  /**
   First-time and promotional discounts are percentage discounts, the latter until they expire; a
   volume discount is one from its threshold on; a fixed amount is taken, rounded, as far as it goes.
   */
  lemma DiscountKinds(amount: real, p: real, at: real, until: int, now: int)
    ensures FirstTime(p).CalculateDiscount(amount, now) == Percentage(p).CalculateDiscount(amount, now)
    ensures Promotional(p, until).CalculateDiscount(amount, now) ==
            if now > until then Ok(0.0) else Percentage(p).CalculateDiscount(amount, now)
    ensures Volume(at, p).CalculateDiscount(amount, now) ==
            if amount < at then Ok(0.0) else Percentage(p).CalculateDiscount(amount, now)
    ensures FixedAmount(at).CalculateDiscount(amount, now) ==
            if at < 0.0 then Err(NegativeAmount)
            else if at > MAX_CHARGE then Err(ExceedsMaximum)
            else Ok(Lesser(RoundMonetary(at), amount))
  {
  }

  /** Ten per cent of ten dollars comes to nine dollars, the part that is left. */
  lemma TenPercentTakesNinety()
    ensures Percentage(10.0).CalculateDiscount(10.0, 0) == Ok(9.0)
  {
    MonetaryUnits(900.0);
    MonetaryUnits(9.0);
    UnitsAreOnScale(900.0, MONETARY_SCALE, 9_000_000);
    UnitsAreOnScale(9.0, MONETARY_SCALE, 90_000);
    DiscountFormula(10.0, 10.0, 900.0);
  }

  /**
   A percentage discount is that percentage of the amount exactly when the code gives one at
   all, and the percentage rounds to half of the amount; and it never is when the exact
   percentage is more than 0.0000505 away from that half.
   */
  lemma PercentageIsItsShareIff(amount: real, percent: real, share: real, n: int, now: int)
    requires Chargeable(amount) && IsUnits(amount, MONETARY_SCALE, n) && share == amount * percent
    ensures Percentage(percent).CalculateDiscount(amount, now) == Ok(PercentOf(share))
       <==> && 0.0 <= percent <= 100.0 && 100.0 * amount - share <= MAX_CHARGE
            && RoundsToHalf(n, RoundInt(10000.0 * share))
    ensures share > 50.0 * amount + 0.00505 || share < 50.0 * amount - 0.00505 ==>
              !RoundsToHalf(n, RoundInt(10000.0 * share))
  {
    var e := RoundInt(10000.0 * share);
    RestIsShareIff(amount, percent, share, n, e);
    MonetaryUnits(amount);
    RoundIntIsNearest(10000.0 * share, e);
  }

  /** What is taken off an amount for a discount. */
  type Rule = (DiscountType, real) -> Result<real, PrecisionError>

  /** The code's rule at time `now`. */
  function RuleAt(now: int): Rule {
    (d: DiscountType, amount: real) => d.CalculateDiscount(amount, now)
  }

  /** A rule that only ever takes monetary amounts, and no more than there is. */
  ghost predicate Sound(rule: Rule) {
    forall d: DiscountType, amount: real :: Chargeable(amount) && rule(d, amount).Ok? ==>
      Chargeable(rule(d, amount).value) && rule(d, amount).value <= amount
  }

  lemma RuleIsSound(now: int)
    ensures Sound(RuleAt(now))
  {
    forall d: DiscountType, amount: real | Chargeable(amount) && RuleAt(now)(d, amount).Ok?
      ensures Chargeable(RuleAt(now)(d, amount).value) && RuleAt(now)(d, amount).value <= amount
    {
      DiscountWithinAmount(d, amount, now);
    }
  }

  /** The total discount and what remains after some of the discounts; `done` once nothing is left. */
  datatype Progress = Progress(total: real, remaining: real, done: bool)

  /** One turn of the discount loop. */
  function TakeDiscount(rule: Rule, p: Progress, d: DiscountType): Result<Progress, PrecisionError> {
    if p.done then Ok(p)
    else
      match rule(d, p.remaining)
      case Err(e) => Err(e)
      case Ok(amount) =>
        match SafeAdd(p.total, amount)
        case Err(e) => Err(e)
        case Ok(total) =>
          match SafeAdd(p.remaining, -amount)
          case Err(e) => Err(e)
          case Ok(remaining) => Ok(Progress(total, remaining, remaining <= 0.0))
  }

  function TakeAll(rule: Rule, subtotal: real, ds: seq<DiscountType>): Result<Progress, PrecisionError> {
    if ds == [] then Ok(Progress(0.0, subtotal, false))
    else
      match TakeAll(rule, subtotal, ds[..|ds| - 1])
      case Err(e) => Err(e)
      case Ok(p) => TakeDiscount(rule, p, ds[|ds| - 1])
  }

  function TakeDiscounts(subtotal: real, ds: seq<DiscountType>, now: int): Result<Progress, PrecisionError> {
    TakeAll(RuleAt(now), subtotal, ds)
  }

  /** Every amount the loop holds is chargeable, and together they are the subtotal. */
  predicate Splits(p: Progress, subtotal: real) {
    && Chargeable(p.total) && Chargeable(p.remaining)
    && p.total + p.remaining == subtotal
    && (p.done ==> p.remaining == 0.0)
  }

  /**
   One discount moves money from what remains to the total, exactly as much as the rule
   says; it fails only on a bad discount or too large a sum.
   */
  lemma DiscountMovesMoney(rule: Rule, p: Progress, subtotal: real, d: DiscountType)
    requires Sound(rule) && Splits(p, subtotal)
    ensures var r := TakeDiscount(rule, p, d);
            r.Ok? ==> Splits(r.value, subtotal) && p.total <= r.value.total
    ensures var r := TakeDiscount(rule, p, d);
            r.Ok? && !p.done ==> rule(d, p.remaining) == Ok(r.value.total - p.total)
    ensures subtotal <= MAX_CHARGE && rule(d, p.remaining).Ok? ==> TakeDiscount(rule, p, d).Ok?
  {
    if !p.done && rule(d, p.remaining).Ok? {
      AmountMoves(p, subtotal, rule(d, p.remaining).value);
    }
  }

  lemma AmountMoves(p: Progress, subtotal: real, amount: real)
    requires Splits(p, subtotal) && Chargeable(amount) && amount <= p.remaining
    ensures SafeAdd(p.total, amount).Ok? <==> p.total + amount <= MAX_CHARGE
    ensures SafeAdd(p.total, amount).Ok? ==> SafeAdd(p.total, amount).value == p.total + amount
    ensures SafeAdd(p.remaining, -amount).Ok? <==> p.remaining - amount <= MAX_CHARGE
    ensures SafeAdd(p.remaining, -amount).Ok? ==> SafeAdd(p.remaining, -amount).value == p.remaining - amount
    ensures Splits(Progress(p.total + amount, p.remaining - amount, p.remaining - amount <= 0.0), subtotal)
  {
    MonetaryCloses(p.total, amount);
    SafeAddIsExact(p.total, amount);
    SafeSubtractIsExact(p.remaining, amount);
  }

  /** Whatever the discounts, total discount and remainder always make up the subtotal. */
  lemma {:induction false} DiscountsConserve(rule: Rule, subtotal: real, ds: seq<DiscountType>)
    requires Sound(rule) && Chargeable(subtotal)
    ensures var r := TakeAll(rule, subtotal, ds);
            r.Ok? ==> Splits(r.value, subtotal)
  {
    ZeroIsMonetary();
    if ds != [] {
      var front := TakeAll(rule, subtotal, ds[..|ds| - 1]);
      DiscountsConserve(rule, subtotal, ds[..|ds| - 1]);
      if front.Ok? {
        DiscountMovesMoney(rule, front.value, subtotal, ds[|ds| - 1]);
      }
    }
  }

  /** More discounts never lower the total discount. */
  lemma {:induction false} MoreDiscountsTakeMore(rule: Rule, subtotal: real, ds: seq<DiscountType>,
                                                 more: seq<DiscountType>)
    requires Sound(rule) && Chargeable(subtotal)
    ensures TakeAll(rule, subtotal, ds + more).Ok? ==> TakeAll(rule, subtotal, ds).Ok?
    ensures TakeAll(rule, subtotal, ds + more).Ok? ==>
              TakeAll(rule, subtotal, ds).value.total <= TakeAll(rule, subtotal, ds + more).value.total
    decreases |more|
  {
    if more == [] {
      assert ds + more == ds;
    } else {
      var front := more[..|more| - 1];
      assert (ds + more)[..|ds + more| - 1] == ds + front;
      MoreDiscountsTakeMore(rule, subtotal, ds, front);
      DiscountsConserve(rule, subtotal, ds + front);
      if TakeAll(rule, subtotal, ds + front).Ok? {
        DiscountMovesMoney(rule, TakeAll(rule, subtotal, ds + front).value, subtotal, more[|more| - 1]);
      }
    }
  }

  /**
   While something is left, the next discount is taken off it or stops everything with its error;
   once nothing is left the other discounts, even bad ones, are not looked at.
   */
  lemma NextDiscount(rule: Rule, subtotal: real, ds: seq<DiscountType>, d: DiscountType)
    requires TakeAll(rule, subtotal, ds).Ok?
    ensures var p, r := TakeAll(rule, subtotal, ds).value, TakeAll(rule, subtotal, ds + [d]);
            && (ds != [] && p.remaining <= 0.0 ==> r == Ok(p))
            && (ds == [] || p.remaining > 0.0 ==> rule(d, p.remaining).Err? ==> r == Err(rule(d, p.remaining).error))
  {
    assert (ds + [d])[..|ds|] == ds;
    DoneIff(rule, subtotal, ds);
  }

  lemma {:induction false} DoneIff(rule: Rule, subtotal: real, ds: seq<DiscountType>)
    requires TakeAll(rule, subtotal, ds).Ok?
    ensures TakeAll(rule, subtotal, ds).value.done <==> ds != [] && TakeAll(rule, subtotal, ds).value.remaining <= 0.0
  {
    if ds != [] {
      DoneIff(rule, subtotal, ds[..|ds| - 1]);
    }
  }

  lemma {:induction false} DoneStays(rule: Rule, subtotal: real, ds: seq<DiscountType>, n: nat)
    requires n <= |ds|
    requires var r := TakeAll(rule, subtotal, ds[..n]); r.Err? || r.value.done
    ensures TakeAll(rule, subtotal, ds) == TakeAll(rule, subtotal, ds[..n])
  {
    if n == |ds| {
      assert ds[..n] == ds;
    } else {
      assert ds[..|ds| - 1][..n] == ds[..n];
      DoneStays(rule, subtotal, ds[..|ds| - 1], n);
    }
  }

  /** One more discount of the list, which may be the last that counts. */
  lemma TakeNext(rule: Rule, subtotal: real, ds: seq<DiscountType>, i: nat, p: Progress)
    requires i < |ds| && TakeAll(rule, subtotal, ds[..i]) == Ok(p)
    ensures var next := TakeDiscount(rule, p, ds[i]);
            && TakeAll(rule, subtotal, ds[..i + 1]) == next
            && (next.Err? || next.value.done ==> TakeAll(rule, subtotal, ds) == next)
  {
    assert ds[..i + 1][..i] == ds[..i];
    var next := TakeAll(rule, subtotal, ds[..i + 1]);
    if next.Err? || next.value.done {
      DoneStays(rule, subtotal, ds, i + 1);
    }
  }

  /** What the loop returns: its first error, or the total discount. */
  function TotalOf(taken: Result<Progress, PrecisionError>, subtotal: real): Result<real, PrecisionError> {
    match taken
    case Err(e) => Err(e)
    case Ok(p) => Ok(Lesser(p.total, subtotal))
  }

  /** Takes the discounts in turn, and stops early once nothing is left. */
  method TakeInTurn(rule: Rule, discounts: seq<DiscountType>, subtotal: real) returns (r: Result<real, PrecisionError>)
    ensures r == TotalOf(TakeAll(rule, subtotal, discounts), subtotal)
  {
    var totalDiscount, remainingAmount := 0.0, subtotal;
    for i := 0 to |discounts|
      invariant TakeAll(rule, subtotal, discounts[..i]) == Ok(Progress(totalDiscount, remainingAmount, false))
    {
      TakeNext(rule, subtotal, discounts, i, Progress(totalDiscount, remainingAmount, false));
      var amount := rule(discounts[i], remainingAmount);
      if amount.Err? {
        return amount;
      }
      var total := SafeAdd(totalDiscount, amount.value);
      if total.Err? {
        return total;
      }
      var remaining := SafeAdd(remainingAmount, -amount.value);
      if remaining.Err? {
        return remaining;
      }
      totalDiscount, remainingAmount := total.value, remaining.value;
      if remainingAmount <= 0.0 {
        return Ok(Lesser(totalDiscount, subtotal));
      }
    }
    assert discounts[..|discounts|] == discounts;
    return Ok(Lesser(totalDiscount, subtotal));
  }

  method CalculateTotalDiscounts(discounts: seq<DiscountType>, subtotal: real, now: int)
    returns (r: Result<real, PrecisionError>)
    ensures r == TotalOf(TakeDiscounts(subtotal, discounts, now), subtotal)
  {
    r := TakeInTurn(RuleAt(now), discounts, subtotal);
  }
}
